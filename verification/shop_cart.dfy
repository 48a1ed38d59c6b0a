/** The customer's cart, a fixed array of ten lines with a running total. */
module ShoppingCarts {
  import opened ShopSpec
  import opened ShopSystem

  datatype AddResult = CartFull | InvalidQuantity | Added | Insufficient | NotFound

  /** What the queue calls did for one cart line of a checkout. */
  datatype Delivery = SendFailed | ReceiveFailed | Response(status: int)

  datatype CheckoutResult = NothingToDo | Cancelled | Succeeded | Failed(line: nat)

  /** The orders a checkout of these lines sends. */
  function SentOrders(lines: seq<CartLine>, pid: nat): (orders: seq<OrderData>)
    ensures |orders| == |lines|
    ensures forall k :: 0 <= k < |lines| ==>
              orders[k] == OrderData(lines[k].name, lines[k].quantity, 0.0, pid, 0)
  {
    seq(|lines|, k requires 0 <= k < |lines| => LineOrder(lines[k], pid))
  }

  predicate Accepts(d: Delivery) {
    d.Response? && d.status != 0
  }

  class ShoppingCart {
    const items: array<CartLine>
    var itemCount: nat
    var totalPrice: real

    ghost predicate Valid()
      reads this
    {
      items.Length == MAX_CART_ITEMS && itemCount <= items.Length
    }

    ghost function Contents(): Cart
      reads this, items
      requires Valid()
    {
      Cart(items[..itemCount], totalPrice)
    }

    constructor ()
      ensures Valid() && items.Length == 10 && Contents().lines == [] && Contents().total == 0.0
    {
      items := new CartLine[MAX_CART_ITEMS](_ => CartLine("", 0, 0.0));
      itemCount, totalPrice := 0, 0.0;
    }

    /** add_to_cart. The inventory is read without the lock, so each read may see another state of it: the
        search loop sees the names in `rows`, and the reads after it see `stock`, `unit` and `again` of the
        row found. */
    method AddToCart(rows: seq<Item>, stock: nat -> int, unit: nat -> real, again: nat -> real,
                     name: string, quantity: int)
      returns (r: AddResult)
      requires Valid()
      modifies this, items
      ensures Valid()
      ensures var i := Lookup(rows, name);
              r == if old(itemCount) >= 10 then CartFull
                   else if quantity <= 0 then InvalidQuantity
                   else if i == |rows| then NotFound
                   else if stock(i) >= quantity then Added else Insufficient
      ensures r == Added ==>
                && var i := Lookup(rows, name);
                && Contents().lines == old(Contents()).lines + [CartLine(name, quantity, unit(i))]
                && Contents().total == old(Contents()).total + again(i) * quantity as real
      ensures r != Added ==> Contents() == old(Contents())
    {
      if itemCount >= MAX_CART_ITEMS {
        return CartFull;
      }
      if quantity <= 0 {
        return InvalidQuantity;
      }
      var i := 0;
      while i < |rows|
        invariant 0 <= i <= |rows| && i <= Lookup(rows, name)
        invariant Valid() && itemCount < MAX_CART_ITEMS && Contents() == old(Contents()) && itemCount == old(itemCount)
      {
        if rows[i].name == name {
          if stock(i) >= quantity {
            items[itemCount] := CartLine(name, quantity, unit(i));
            totalPrice := totalPrice + Cost(quantity, again(i));
            itemCount := itemCount + 1;
            return Added;
          } else {
            return Insufficient;
          }
        }
        i := i + 1;
      }
      return NotFound;
    }

    /** clear_cart; `confirmed` is the answer to its question. */
    method ClearCart(confirmed: bool)
      requires Valid()
      modifies this
      ensures Valid()
      ensures Contents() == if confirmed && old(itemCount) > 0 then EMPTY_CART else old(Contents())
    {
      if itemCount == 0 {
        return;
      }
      if confirmed {
        itemCount, totalPrice := 0, 0.0;
      }
    }

    /** checkout: one order and one response per line, stopping at the first that does not succeed. The
        lines before it have been sent and accepted; the cart is emptied only when all were. */
    method Checkout(confirmed: bool, pid: nat, queue: nat -> Delivery)
      returns (sent: seq<OrderData>, r: CheckoutResult)
      requires Valid()
      modifies this
      ensures Valid()
      ensures r.NothingToDo? <==> old(itemCount) == 0
      ensures r.Cancelled? <==> old(itemCount) > 0 && !confirmed
      ensures r.Succeeded? <==>
                old(itemCount) > 0 && confirmed && forall k :: 0 <= k < old(itemCount) ==> Accepts(queue(k))
      ensures r.Succeeded? ==> Contents() == EMPTY_CART && sent == SentOrders(old(Contents()).lines, pid)
      ensures !r.Succeeded? ==> Contents() == old(Contents())
      ensures r.Failed? ==>
                && r.line < old(itemCount) && !Accepts(queue(r.line))
                && (forall k :: 0 <= k < r.line ==> Accepts(queue(k)))
                && var count := if queue(r.line).SendFailed? then r.line else r.line + 1;
                && sent == SentOrders(old(Contents()).lines, pid)[..count]
      ensures r.NothingToDo? || r.Cancelled? ==> sent == []
    {
      sent := [];
      if itemCount == 0 {
        return sent, NothingToDo;
      }
      if !confirmed {
        return sent, Cancelled;
      }
      ghost var lines := Contents().lines;
      var i := 0;
      while i < itemCount
        invariant 0 <= i <= itemCount == old(itemCount)
        invariant Contents() == old(Contents()) && lines == Contents().lines
        invariant sent == SentOrders(lines, pid)[..i]
        invariant forall k :: 0 <= k < i ==> Accepts(queue(k))
      {
        var order := LineOrder(items[i], pid);
        if queue(i).SendFailed? {
          return sent, Failed(i);
        }
        sent := sent + [order];
        if queue(i).ReceiveFailed? || queue(i).status == 0 {
          return sent, Failed(i);
        }
        i := i + 1;
      }
      itemCount, totalPrice := 0, 0.0;
      assert SentOrders(lines, pid)[..i] == SentOrders(lines, pid);
      return sent, Succeeded;
    }
  }
}
