/** The shared inventory segment, updated in place by the shop and by the inventory manager. */
module SharedMemory {
  import opened ShopSpec

  /** A line of the inventory file, in the order its fields are read. */
  datatype FileLine = FileLine(name: string, price: real, quantity: int, threshold: int)

  function Loaded(file: seq<FileLine>): (rows: seq<Item>)
    ensures |rows| == |file|
    ensures forall k :: 0 <= k < |file| ==>
              rows[k] == Item(file[k].name, file[k].quantity, file[k].price, file[k].threshold)
  {
    seq(|file|, k requires 0 <= k < |file| => Item(file[k].name, file[k].quantity, file[k].price, file[k].threshold))
  }

  class SharedInventory {
    const items: array<Item>
    var itemCount: nat

    ghost predicate Valid()
      reads this, items
    {
      items.Length == MAX_ITEMS && itemCount <= items.Length
    }

    ghost function Rows(): seq<Item>
      reads this, items
      requires Valid()
    {
      items[..itemCount]
    }

    constructor ()
      ensures Valid() && Rows() == [] && items.Length == 100
    {
      items := new Item[MAX_ITEMS](_ => Item("", 0, 0.0, 0));
      itemCount := 0;
    }

    method LoadInventory(file: seq<FileLine>)
      requires Valid() && |file| <= MAX_ITEMS
      modifies this, items
      ensures Valid() && Rows() == Loaded(file)
    {
      var idx := 0;
      while idx < |file|
        invariant 0 <= idx <= |file|
        invariant items[..idx] == Loaded(file)[..idx]
      {
        items[idx] := Item(file[idx].name, file[idx].quantity, file[idx].price, file[idx].threshold);
        idx := idx + 1;
      }
      itemCount := idx;
      assert Loaded(file)[..idx] == Loaded(file);
    }

    /** A store to one row. */
    method Store(i: nat, item: Item)
      requires Valid() && i < itemCount
      modifies items
      ensures Valid() && itemCount == old(itemCount) && Rows() == old(Rows())[i := item]
    {
      items[i] := item;
    }

    /** The loop of process_order, run under the lock. */
    method ProcessOrder(msg: OrderData) returns (reply: OrderData, alerts: seq<Alert>)
      requires Valid()
      modifies items
      ensures Valid() && itemCount == old(itemCount)
      ensures Outcome(Rows(), reply, alerts) == ApplyOrder(old(Rows()), msg)
    {
      reply, alerts := msg.(status := 0), [];
      var i := 0;
      while i < itemCount
        invariant 0 <= i <= itemCount
        invariant i <= Lookup(Rows(), msg.name)
        invariant Rows() == old(Rows()) && reply == msg.(status := 0) && alerts == []
      {
        if items[i].name == msg.name {
          if items[i].quantity >= msg.quantity {
            var newQuantity := items[i].quantity - msg.quantity;
            assert i == Lookup(Rows(), msg.name) && items[i] == Rows()[i];
            Store(i, items[i].(quantity := newQuantity));
            reply := reply.(status := 1, price := Cost(msg.quantity, items[i].price));
            if newQuantity == 0 {
              alerts := [Alert(OutOfStock, items[i].name, newQuantity, items[i].lowThreshold)];
            } else if newQuantity <= items[i].lowThreshold {
              alerts := [Alert(LowStock, items[i].name, newQuantity, items[i].lowThreshold)];
            }
          }
          return;
        }
        i := i + 1;
      }
    }

    /** restock_item after its prompts; non-positive quantities are refused before the lock is taken. */
    method RestockItem(name: string, quantity: int) returns (found: bool)
      requires Valid()
      modifies items
      ensures Valid() && itemCount == old(itemCount)
      ensures found <==> quantity > 0 && Lookup(old(Rows()), name) < |old(Rows())|
      ensures Rows() == if quantity > 0 then ApplyRestock(old(Rows()), name, quantity) else old(Rows())
    {
      found := false;
      if quantity <= 0 {
        return;
      }
      var i := 0;
      while i < itemCount
        invariant 0 <= i <= itemCount
        invariant i <= Lookup(Rows(), name)
        invariant Rows() == old(Rows())
      {
        if items[i].name == name {
          assert i == Lookup(Rows(), name) && items[i] == Rows()[i];
          Store(i, items[i].(quantity := items[i].quantity + quantity));
          found := true;
          return;
        }
        i := i + 1;
      }
    }

    /** update_price after its prompts. */
    method UpdatePrice(name: string, newPrice: real) returns (found: bool)
      requires Valid()
      modifies items
      ensures Valid() && itemCount == old(itemCount)
      ensures found <==> newPrice > 0.0 && Lookup(old(Rows()), name) < |old(Rows())|
      ensures Rows() == if newPrice > 0.0 then ApplyPrice(old(Rows()), name, newPrice) else old(Rows())
    {
      found := false;
      if newPrice <= 0.0 {
        return;
      }
      var i := 0;
      while i < itemCount
        invariant 0 <= i <= itemCount
        invariant i <= Lookup(Rows(), name)
        invariant Rows() == old(Rows())
      {
        if items[i].name == name {
          assert i == Lookup(Rows(), name) && items[i] == Rows()[i];
          Store(i, items[i].(price := newPrice));
          found := true;
          return;
        }
        i := i + 1;
      }
    }
  }
}
