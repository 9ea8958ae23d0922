/** The application shell's own state: the cart kept in memory by the top
    component, the header badge, and logging out. */
module App {
  import opened Basics
  import Client

  /** One cart line: a product id and how many of it. */
  datatype CartItem = CartItem(productId: string, quantity: int)

  predicate UniqueIds(items: seq<CartItem>)
  {
    forall i, j :: 0 <= i < j < |items| ==> items[i].productId != items[j].productId
  }

  predicate InCart(items: seq<CartItem>, id: string)
  {
    exists i :: 0 <= i < |items| && items[i].productId == id
  }

  /** `items.map(item => item.productId === id ? change(item) : item)`. */
  function MapWhere(items: seq<CartItem>, id: string, change: CartItem -> CartItem): (r: seq<CartItem>)
    ensures |r| == |items|
    ensures forall i :: 0 <= i < |items| && items[i].productId != id ==> r[i] == items[i]
    ensures forall i :: 0 <= i < |items| && items[i].productId == id ==> r[i] == change(items[i])
  {
    if |items| == 0 then []
    else [if items[0].productId == id then change(items[0]) else items[0]] + MapWhere(items[1..], id, change)
  }

  function Bump(item: CartItem): CartItem
  {
    item.(quantity := item.quantity + 1)
  }

  /** `addToCart`: a product already in the cart gets one more; a new one is
      appended with quantity 1. */
  function AddToCart(items: seq<CartItem>, id: string): (r: seq<CartItem>)
    ensures InCart(items, id) ==> r == MapWhere(items, id, Bump)
    ensures !InCart(items, id) ==> r == items + [CartItem(id, 1)]
    ensures InCart(r, id)
  {
    match FirstIndex(items, (item: CartItem) => item.productId == id)
    case Some(i) =>
      assert MapWhere(items, id, Bump)[i].productId == id;
      MapWhere(items, id, Bump)
    case None =>
      var r := items + [CartItem(id, 1)];
      assert r[|items|].productId == id;
      r
  }

  /** The `onUpdateQuantity` callback: every line of that product gets the
      new quantity. */
  function UpdateQuantity(items: seq<CartItem>, id: string, quantity: int): (r: seq<CartItem>)
    ensures |r| == |items|
    ensures forall i :: 0 <= i < |items| ==> r[i].productId == items[i].productId
    ensures forall i :: 0 <= i < |items| ==>
              r[i].quantity == (if items[i].productId == id then quantity else items[i].quantity)
  {
    MapWhere(items, id, (item: CartItem) => item.(quantity := quantity))
  }

  /** The `onRemoveItem` callback. */
  function RemoveItem(items: seq<CartItem>, id: string): (r: seq<CartItem>)
    ensures !InCart(r, id)
    ensures forall i :: 0 <= i < |items| && items[i].productId != id ==> items[i] in r
    ensures forall item :: item in r ==> item in items
  {
    var r := Filter(items, (item: CartItem) => item.productId != id);
    assert forall i :: 0 <= i < |r| ==> r[i] in r;
    r
  }

  /** The header badge: `cartItems.length`. */
  function BadgeCount(items: seq<CartItem>): (r: nat)
    ensures r == 0 <==> forall id :: !InCart(items, id)
  {
    if |items| > 0 then assert InCart(items, items[0].productId); |items| else 0
  }

  /** The sum of the quantities; when every line holds at least one piece,
      it is at least the number of lines. */
  function QuantitySum(items: seq<CartItem>): (r: int)
    ensures (forall i :: 0 <= i < |items| ==> items[i].quantity >= 1) ==> r >= |items|
  {
    if |items| == 0 then 0
    else
      assert forall i :: 0 <= i < |items[1..]| ==> items[1..][i] == items[i + 1];
      items[0].quantity + QuantitySum(items[1..])
  }

  /** Adding keeps one line per product. */
  lemma AddKeepsUnique(items: seq<CartItem>, id: string)
    requires UniqueIds(items)
    ensures UniqueIds(AddToCart(items, id))
  {
  }

  /** Adding a product raises the total quantity by one; the badge grows only
      for a product not yet in the cart, so it counts lines, not pieces. */
  lemma AddCountsOne(items: seq<CartItem>, id: string)
    requires UniqueIds(items)
    ensures QuantitySum(AddToCart(items, id)) == QuantitySum(items) + 1
    ensures BadgeCount(AddToCart(items, id)) == BadgeCount(items) + (if InCart(items, id) then 0 else 1)
  {
    if InCart(items, id) {
      BumpSum(items, id);
    } else {
      SumAppend(items, [CartItem(id, 1)]);
    }
  }

  lemma {:induction false} SumAppend(a: seq<CartItem>, b: seq<CartItem>)
    ensures QuantitySum(a + b) == QuantitySum(a) + QuantitySum(b)
  {
    if |a| == 0 {
      assert a + b == b;
    } else {
      assert (a + b)[1..] == a[1..] + b;
      SumAppend(a[1..], b);
    }
  }

  /** Below the first line of a cart with one line per product, the lines
      are still unique and none is for the first line's product. */
  lemma UniqueTail(items: seq<CartItem>)
    requires UniqueIds(items) && |items| > 0
    ensures UniqueIds(items[1..])
    ensures !InCart(items[1..], items[0].productId)
  {
    forall k | 0 <= k < |items[1..]| ensures items[1..][k].productId != items[0].productId {
      assert items[1..][k] == items[k + 1];
    }
  }

  /** A product in the cart but not on its first line is on a later one. */
  lemma InCartTail(items: seq<CartItem>, id: string)
    requires InCart(items, id) && items[0].productId != id
    ensures InCart(items[1..], id)
  {
    var i :| 0 <= i < |items| && items[i].productId == id;
    assert items[1..][i - 1].productId == id;
  }

  /** Bumping the one line of a product adds one to the total quantity. */
  lemma {:induction false} BumpSum(items: seq<CartItem>, id: string)
    requires UniqueIds(items) && InCart(items, id)
    ensures QuantitySum(MapWhere(items, id, Bump)) == QuantitySum(items) + 1
  {
    var r := MapWhere(items, id, Bump);
    assert r[1..] == MapWhere(items[1..], id, Bump);
    UniqueTail(items);
    if items[0].productId == id {
      NoBumpSum(items[1..], id);
    } else {
      InCartTail(items, id);
      BumpSum(items[1..], id);
    }
  }

  lemma {:induction false} NoBumpSum(items: seq<CartItem>, id: string)
    requires !InCart(items, id)
    ensures MapWhere(items, id, Bump) == items
  {
    if |items| > 0 {
      assert items[0].productId != id;
      assert !InCart(items[1..], id) by {
        forall i | 0 <= i < |items[1..]| ensures items[1..][i].productId != id {
          assert items[1..][i] == items[i + 1];
        }
      }
      NoBumpSum(items[1..], id);
    }
  }

  /** The last quantity set wins: setting one quantity and then another is
      setting the second, so setting the same quantity twice is setting it
      once, and a cart whose lines of that product already hold it is left
      as it is. */
  lemma UpdateLastWins(items: seq<CartItem>, id: string, first: int, second: int)
    ensures UpdateQuantity(UpdateQuantity(items, id, first), id, second) == UpdateQuantity(items, id, second)
    ensures (forall i :: 0 <= i < |items| && items[i].productId == id ==> items[i].quantity == first)
            ==> UpdateQuantity(items, id, first) == items
  {
    var once := UpdateQuantity(items, id, first);
    var twice := UpdateQuantity(once, id, second);
    var direct := UpdateQuantity(items, id, second);
    assert |twice| == |direct|;
    forall i | 0 <= i < |items| ensures twice[i] == direct[i] {
      assert twice[i].productId == direct[i].productId;
    }
    if forall i :: 0 <= i < |items| && items[i].productId == id ==> items[i].quantity == first {
      forall i | 0 <= i < |items| ensures once[i] == items[i] {
        assert once[i].productId == items[i].productId;
      }
    }
  }

  /** Removing drops every line of the product and keeps the others, in
      order. */
  lemma RemoveDropsOnlyThat(items: seq<CartItem>, id: string)
    ensures !InCart(RemoveItem(items, id), id)
    ensures forall other :: other != id ==> (InCart(RemoveItem(items, id), other) <==> InCart(items, other))
    ensures IsSubsequence(RemoveItem(items, id), items)
  {
    var keep := (item: CartItem) => item.productId != id;
    var r := RemoveItem(items, id);
    FilterIsSubsequence(items, keep);
    forall other | other != id
      ensures InCart(r, other) <==> InCart(items, other)
    {
      if InCart(items, other) {
        var i :| 0 <= i < |items| && items[i].productId == other;
        assert items[i] in items;
        var k :| 0 <= k < |r| && r[k] == items[i];
      }
      if InCart(r, other) {
        var i :| 0 <= i < |r| && r[i].productId == other;
        assert r[i] in r;
      }
    }
    forall i | 0 <= i < |r|
      ensures r[i].productId != id
    {
      assert r[i] in r;
    }
  }

  /** Removing a product undoes adding it. */
  lemma RemoveUndoesAdd(items: seq<CartItem>, id: string)
    ensures RemoveItem(AddToCart(items, id), id) == RemoveItem(items, id)
  {
    if InCart(items, id) {
      RemoveIgnoresChange(items, id, Bump);
    } else {
      RemoveAppended(items, CartItem(id, 1), id);
    }
  }

  lemma {:induction false} RemoveIgnoresChange(items: seq<CartItem>, id: string, change: CartItem -> CartItem)
    requires forall item :: change(item).productId == item.productId
    ensures RemoveItem(MapWhere(items, id, change), id) == RemoveItem(items, id)
  {
    if |items| > 0 {
      var r := MapWhere(items, id, change);
      assert r[1..] == MapWhere(items[1..], id, change);
      RemoveIgnoresChange(items[1..], id, change);
    }
  }

  lemma {:induction false} RemoveAppended(items: seq<CartItem>, item: CartItem, id: string)
    requires item.productId == id
    ensures RemoveItem(items + [item], id) == RemoveItem(items, id)
  {
    if |items| == 0 {
      assert [item][1..] == [];
    } else {
      assert (items + [item])[1..] == items[1..] + [item];
      RemoveAppended(items[1..], item, id);
    }
  }

  // ---------------------------------------------------------------------
  // logging out

  /** The parts of the shell's state logging out touches: the stored token,
      the signed-in user and the page shown. */
  datatype Shell = Shell(token: Option<string>, userId: Option<string>, page: string)

  /** `handleLogout`: the server call may fail, but the `finally` block
      clears the token and the user and returns home either way. */
  function Logout(s: Shell, callFailed: bool): (r: Shell)
    ensures r.token.None? && r.userId.None? && r.page == "home"
  {
    s.(token := None, userId := None, page := "home")
  }

  /** After logging out, whether or not the server was reached, no request
      carries a credential the caller did not add themselves. */
  lemma LoggedOutSendsNoCredential(s: Shell, callFailed: bool, custom: map<string, string>)
    ensures Logout(s, callFailed) == Logout(s, !callFailed)
    ensures var h := Client.BuildHeaders(custom, Logout(s, callFailed).token);
            "Authorization" in h <==> "Authorization" in custom
  {
    Client.NoTokenNoCredential(custom, Logout(s, callFailed).token);
  }
}
