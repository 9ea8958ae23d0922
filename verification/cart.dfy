/** The cart page: the price total over a catalogue of known products, the
    quantity controls that keep every line between 1 and 99, the checkout
    checks and the summary count. */
module CartPage {
  import opened Basics
  import opened Text
  import opened App

  /** A line's contribution: price times quantity, or nothing when the
      catalogue does not know the product. */
  function LineTotal(item: CartItem, prices: map<string, int>): int
  {
    if item.productId in prices then prices[item.productId] * item.quantity else 0
  }

  /** `calculateTotal`: a cart of unknown products totals nothing, and with
      prices and quantities not below zero the total is not either. */
  function Total(items: seq<CartItem>, prices: map<string, int>): (r: int)
    ensures (forall i :: 0 <= i < |items| ==> items[i].productId !in prices) ==> r == 0
    ensures ((forall i :: 0 <= i < |items| ==> items[i].quantity >= 0)
             && (forall id :: id in prices ==> prices[id] >= 0)) ==> r >= 0
  {
    if |items| == 0 then 0
    else
      assert forall i :: 0 <= i < |items[1..]| ==> items[1..][i] == items[i + 1];
      LineTotal(items[0], prices) + Total(items[1..], prices)
  }

  lemma {:induction false} TotalAppend(a: seq<CartItem>, b: seq<CartItem>, prices: map<string, int>)
    ensures Total(a + b, prices) == Total(a, prices) + Total(b, prices)
  {
    if |a| == 0 {
      assert a + b == b;
    } else {
      assert (a + b)[1..] == a[1..] + b;
      TotalAppend(a[1..], b, prices);
    }
  }

  /** Lines of unknown products add nothing: the total is the total of the
      known lines alone. */
  lemma {:induction false} TotalIgnoresUnknown(items: seq<CartItem>, prices: map<string, int>)
    ensures Total(items, prices) == Total(Filter(items, (item: CartItem) => item.productId in prices), prices)
  {
    if |items| > 0 {
      TotalIgnoresUnknown(items[1..], prices);
    }
  }

  /** Adding a known product to a cart with one line per product raises the
      total by its price. */
  lemma TotalAfterAdd(items: seq<CartItem>, id: string, prices: map<string, int>)
    requires UniqueIds(items) && id in prices
    ensures Total(AddToCart(items, id), prices) == Total(items, prices) + prices[id]
  {
    if InCart(items, id) {
      BumpTotal(items, id, prices);
    } else {
      TotalAppend(items, [CartItem(id, 1)], prices);
    }
  }

  /** One more piece of a known product adds its price to the line. */
  lemma BumpLine(item: CartItem, prices: map<string, int>)
    requires item.productId in prices
    ensures LineTotal(Bump(item), prices) == LineTotal(item, prices) + prices[item.productId]
  {
    var p := prices[item.productId];
    assert p * (item.quantity + 1) == p * item.quantity + p;
  }

  lemma {:induction false} BumpTotal(items: seq<CartItem>, id: string, prices: map<string, int>)
    requires UniqueIds(items) && InCart(items, id) && id in prices
    ensures Total(MapWhere(items, id, Bump), prices) == Total(items, prices) + prices[id]
  {
    var r := MapWhere(items, id, Bump);
    assert r[1..] == MapWhere(items[1..], id, Bump);
    UniqueTail(items);
    if items[0].productId == id {
      NoBumpSum(items[1..], id);
      BumpLine(items[0], prices);
    } else {
      InCartTail(items, id);
      BumpTotal(items[1..], id, prices);
    }
  }

  // ---------------------------------------------------------------------
  // quantity controls

  /** Every line holds between 1 and 99 pieces, as the input's bounds say. */
  predicate InRange(items: seq<CartItem>)
  {
    forall i :: 0 <= i < |items| ==> 1 <= items[i].quantity <= 99
  }

  /** The minus button: only above 1. */
  function Decrement(items: seq<CartItem>, item: CartItem): (r: seq<CartItem>)
    ensures |r| == |items|
    ensures forall i :: 0 <= i < |items| && items[i].productId != item.productId ==> r[i] == items[i]
    ensures InRange(items) && item in items ==> InRange(r)
  {
    var r := if item.quantity > 1 then UpdateQuantity(items, item.productId, item.quantity - 1) else items;
    assert InRange(items) && item in items ==> InRange(r) by {
      if InRange(items) && item in items { ListedInRange(items, item); }
    }
    r
  }

  /** The plus button: only below 99. */
  function Increment(items: seq<CartItem>, item: CartItem): (r: seq<CartItem>)
    ensures |r| == |items|
    ensures forall i :: 0 <= i < |items| && items[i].productId != item.productId ==> r[i] == items[i]
    ensures InRange(items) && item in items ==> InRange(r)
  {
    var r := if item.quantity < 99 then UpdateQuantity(items, item.productId, item.quantity + 1) else items;
    assert InRange(items) && item in items ==> InRange(r) by {
      if InRange(items) && item in items { ListedInRange(items, item); }
    }
    r
  }

  /** Typing a quantity: `parseInt` of the text, taken only within 1..99
      (NaN fails the comparison). Whatever is typed, the cart stays within
      bounds. */
  function TypeQuantity(items: seq<CartItem>, item: CartItem, text: string): (r: seq<CartItem>)
    ensures |r| == |items|
    ensures forall i :: 0 <= i < |items| && items[i].productId != item.productId ==> r[i] == items[i]
    ensures InRange(items) ==> InRange(r)
  {
    match ParseInt(text)
    case Some(n) => if n > 0 && n <= 99 then UpdateQuantity(items, item.productId, n) else items
    case None => items
  }

  /** Setting every line of one product to a quantity within bounds keeps
      the cart within bounds. */
  lemma UpdateInRange(items: seq<CartItem>, id: string, quantity: int)
    requires InRange(items) && 1 <= quantity <= 99
    ensures InRange(UpdateQuantity(items, id, quantity))
  {
  }

  /** A listed line holds between 1 and 99 pieces. */
  lemma ListedInRange(items: seq<CartItem>, item: CartItem)
    requires InRange(items) && item in items
    ensures 1 <= item.quantity <= 99
  {
    var i :| 0 <= i < |items| && items[i] == item;
  }

  /** The buttons keep a listed line within 1..99. */
  lemma ButtonsKeepRange(items: seq<CartItem>, item: CartItem)
    requires InRange(items) && item in items
    ensures InRange(Decrement(items, item)) && InRange(Increment(items, item))
  {
    ListedInRange(items, item);
    if item.quantity > 1 {
      UpdateInRange(items, item.productId, item.quantity - 1);
    }
    if item.quantity < 99 {
      UpdateInRange(items, item.productId, item.quantity + 1);
    }
  }

  /** Typed text keeps the cart within 1..99, whatever it reads as. */
  lemma TypingKeepsRange(items: seq<CartItem>, item: CartItem, text: string)
    requires InRange(items)
    ensures InRange(TypeQuantity(items, item, text))
  {
    var n := ParseInt(text);
    if n.Some? && 0 < n.value <= 99 {
      UpdateInRange(items, item.productId, n.value);
    }
  }

  /** No control of the page can take a line out of 1..99. */
  lemma ControlsKeepRange(items: seq<CartItem>, item: CartItem, text: string)
    requires InRange(items) && item in items
    ensures InRange(Decrement(items, item))
    ensures InRange(Increment(items, item))
    ensures InRange(TypeQuantity(items, item, text))
  {
    ButtonsKeepRange(items, item);
    TypingKeepsRange(items, item, text);
  }

  /** Text that does not start with a number changes nothing. */
  lemma NonNumberIgnored(items: seq<CartItem>, item: CartItem, text: string)
    requires ParseInt(text).None?
    ensures TypeQuantity(items, item, text) == items
  {
  }

  /** The cap is the page's alone: adding from elsewhere still counts past
      99. */
  lemma AddIgnoresCap(id: string)
    ensures InRange([CartItem(id, 99)])
    ensures AddToCart([CartItem(id, 99)], id) == [CartItem(id, 100)]
    ensures !InRange(AddToCart([CartItem(id, 99)], id))
  {
    var items := [CartItem(id, 99)];
    assert items[0].productId == id;
    var r := MapWhere(items, id, Bump);
    assert r[0] == CartItem(id, 100);
  }

  // ---------------------------------------------------------------------
  // checkout and summary

  datatype Checkout = NeedLogin | EmptyCart | Pay(total: int)

  /** `handleCheckout`: the login check comes first, then the empty cart,
      then the total is announced. */
  function CheckOut(signedIn: bool, items: seq<CartItem>, prices: map<string, int>): (r: Checkout)
    ensures r == NeedLogin <==> !signedIn
    ensures r == EmptyCart <==> signedIn && |items| == 0
    ensures r.Pay? ==> r.total == Total(items, prices)
  {
    if !signedIn then NeedLogin
    else if |items| == 0 then EmptyCart
    else Pay(Total(items, prices))
  }

  /** Adding a known product and checking out signed in pays the old total
      plus that product's price. */
  lemma CheckOutAfterAdd(items: seq<CartItem>, id: string, prices: map<string, int>)
    requires UniqueIds(items) && id in prices
    ensures CheckOut(true, AddToCart(items, id), prices) == Pay(Total(items, prices) + prices[id])
  {
    var r := AddToCart(items, id);
    TotalAfterAdd(items, id, prices);
    var i :| 0 <= i < |r| && r[i].productId == id;
  }

  /** The summary count is the sum of quantities; within bounds it is at
      least the number of lines the header badge shows, and equal only when
      every line holds one piece. */
  lemma {:induction false} SummaryAtLeastBadge(items: seq<CartItem>)
    requires InRange(items)
    ensures QuantitySum(items) >= BadgeCount(items)
    ensures QuantitySum(items) == BadgeCount(items) <==> forall i :: 0 <= i < |items| ==> items[i].quantity == 1
  {
    if |items| > 0 {
      assert InRange(items[1..]) by {
        forall i | 0 <= i < |items[1..]| ensures 1 <= items[1..][i].quantity <= 99 {
          assert items[1..][i] == items[i + 1];
        }
      }
      SummaryAtLeastBadge(items[1..]);
      forall i | 1 <= i < |items| ensures items[i] == items[1..][i - 1] { }
    }
  }
}
