/** The System V message queue all shop processes share: FIFO within a type, bounded in bytes. */
module MessageQueue {
  import opened ShopSpec

  datatype Msg = OrderMsg(order: OrderData) | ResponseMsg(order: OrderData) | AlertMsg(alert: Alert)

  const MSG_ORDER := 1
  const MSG_RESPONSE := 4
  const MSG_NOTIFY_LOW_STOCK := 5
  const MSG_NOTIFY_OUT_OF_STOCK := 6

  function Type(m: Msg): int {
    match m
    case OrderMsg(_) => MSG_ORDER
    case ResponseMsg(_) => MSG_RESPONSE
    case AlertMsg(a) => if a.kind == LowStock then MSG_NOTIFY_LOW_STOCK else MSG_NOTIFY_OUT_OF_STOCK
  }

  // sizeof the `data` parts on an LP64 machine
  const ORDER_SIZE: nat := 72
  const ALERT_SIZE: nat := 64

  function Size(m: Msg): nat {
    if m.AlertMsg? then ALERT_SIZE else ORDER_SIZE
  }

  function Bytes(q: seq<Msg>): nat {
    if q == [] then 0 else Size(q[0]) + Bytes(q[1..])
  }

  /** msgsnd does not block (or, with IPC_NOWAIT, does not fail) exactly when the message fits. */
  predicate HasRoom(q: seq<Msg>, m: Msg, qbytes: nat) {
    Bytes(q) + Size(m) <= qbytes
  }

  /** The part of a selection that one message contributes. */
  function Pick(m: Msg, t: int): seq<Msg> {
    if Type(m) == t then [m] else []
  }

  /** The messages of one type, oldest first. */
  function Select(q: seq<Msg>, t: int): seq<Msg> {
    if q == [] then [] else Pick(q[0], t) + Select(q[1..], t)
  }

  /** The position of the message that msgrcv takes for type `t`, or `|q|` when there is none. */
  function First(q: seq<Msg>, t: int): (i: nat)
    ensures i <= |q|
    ensures forall k :: 0 <= k < i ==> Type(q[k]) != t
    ensures i < |q| ==> Type(q[i]) == t
  {
    if q == [] || Type(q[0]) == t then 0 else 1 + First(q[1..], t)
  }

  function Remove(q: seq<Msg>, i: nat): seq<Msg>
    requires i < |q|
  {
    q[..i] + q[i + 1..]
  }

  lemma {:induction false} SelectConcat(a: seq<Msg>, b: seq<Msg>, t: int)
    ensures Select(a + b, t) == Select(a, t) + Select(b, t)
  {
    if a == [] {
      assert a + b == b;
    } else {
      var rest := a[1..];
      assert (a + b)[1..] == rest + b;
      SelectConcat(rest, b, t);
      Associate(Pick(a[0], t), Select(rest, t), Select(b, t));
    }
  }

  lemma Associate(x: seq<Msg>, y: seq<Msg>, z: seq<Msg>)
    ensures x + (y + z) == (x + y) + z
  {
  }

  lemma {:induction false} BytesConcat(a: seq<Msg>, b: seq<Msg>)
    ensures Bytes(a + b) == Bytes(a) + Bytes(b)
  {
    if a == [] {
      assert a + b == b;
    } else {
      assert (a + b)[1..] == a[1..] + b;
      BytesConcat(a[1..], b);
    }
  }

  lemma {:induction false} SelectNone(q: seq<Msg>, t: int)
    requires forall k :: 0 <= k < |q| ==> Type(q[k]) != t
    ensures Select(q, t) == []
  {
    if q != [] {
      SelectNone(q[1..], t);
    }
  }

  lemma SelectOne(m: Msg, t: int)
    ensures Select([m], t) == Pick(m, t)
  {
    assert [m][1..] == [];
  }

  /** Sending appends to the message's own type and leaves every other type alone. */
  lemma SendEffect(q: seq<Msg>, m: Msg)
    ensures forall t :: Select(q + [m], t) == Select(q, t) + Pick(m, t)
    ensures Bytes(q + [m]) == Bytes(q) + Size(m)
  {
    forall t ensures Select(q + [m], t) == Select(q, t) + Pick(m, t) {
      SelectConcat(q, [m], t);
      SelectOne(m, t);
    }
    BytesConcat(q, [m]);
    assert Bytes([m]) == Size(m) + Bytes([m][1..]);
  }

  /** A queue as what lies before a message, the message, and what lies behind it. */
  lemma SelectAround(q: seq<Msg>, i: nat, t: int)
    requires i < |q|
    ensures Select(q, t) == Select(q[..i], t) + (Pick(q[i], t) + Select(q[i + 1..], t))
    ensures Select(Remove(q, i), t) == Select(q[..i], t) + Select(q[i + 1..], t)
  {
    var tail := q[i..];
    assert q == q[..i] + tail;
    assert tail[1..] == q[i + 1..];
    SelectConcat(q[..i], tail, t);
    SelectConcat(q[..i], q[i + 1..], t);
  }

  lemma BytesAround(q: seq<Msg>, i: nat)
    requires i < |q|
    ensures Bytes(q) == Bytes(Remove(q, i)) + Size(q[i])
  {
    var tail := q[i..];
    assert q == q[..i] + tail;
    assert tail[1..] == q[i + 1..];
    BytesConcat(q[..i], tail);
    BytesConcat(q[..i], q[i + 1..]);
  }

  lemma ReceiveOther(q: seq<Msg>, i: nat, t: int)
    requires i < |q| && Type(q[i]) != t
    ensures Select(Remove(q, i), t) == Select(q, t)
  {
    SelectAround(q, i, t);
  }

  lemma ReceiveOwn(q: seq<Msg>, t: int)
    requires First(q, t) < |q|
    ensures Select(q, t) == [q[First(q, t)]] + Select(Remove(q, First(q, t)), t)
  {
    SelectAround(q, First(q, t), t);
    SelectNone(q[..First(q, t)], t);
  }

  /** Receiving takes the oldest message of its type and leaves every other type alone. */
  lemma ReceiveEffect(q: seq<Msg>, t: int)
    requires First(q, t) < |q|
    ensures var i := First(q, t);
            && Select(q, t) == [q[i]] + Select(Remove(q, i), t)
            && (forall u :: u != t ==> Select(Remove(q, i), u) == Select(q, u))
            && Bytes(q) == Bytes(Remove(q, i)) + Size(q[i])
  {
    ReceiveOwn(q, t);
    BytesAround(q, First(q, t));
    forall u | u != t ensures Select(Remove(q, First(q, t)), u) == Select(q, u) {
      ReceiveOther(q, First(q, t), u);
    }
  }

  lemma {:induction false} SelectIsNonempty(q: seq<Msg>, t: int)
    ensures Select(q, t) != [] <==> First(q, t) < |q|
  {
    if First(q, t) == |q| {
      SelectNone(q, t);
    } else {
      ReceiveEffect(q, t);
    }
  }

  /** Every byte in the queue belongs to an order, a response or an alert: 72 to each message of type 1 or 4
      and 64 to each of type 5 or 6. */
  lemma {:induction false} BytesByType(q: seq<Msg>)
    ensures Bytes(q) == 72 * (|Select(q, 1)| + |Select(q, 4)|) + 64 * (|Select(q, 5)| + |Select(q, 6)|)
  {
    if q != [] {
      BytesByType(q[1..]);
    }
  }

  // ---- One step's traffic ---------------------------------------------------------------------

  /** What a step of some process does to the queue. */
  datatype Traffic = Still | Sent(msg: Msg) | Taken(kind: int)

  predicate Possible(q: seq<Msg>, traffic: Traffic) {
    traffic.Taken? ==> First(q, traffic.kind) < |q|
  }

  function After(q: seq<Msg>, traffic: Traffic): seq<Msg>
    requires Possible(q, traffic)
  {
    match traffic
    case Still => q
    case Sent(m) => q + [m]
    case Taken(t) => Remove(q, First(q, t))
  }

  /** Traffic of one type adds at the end or takes from the front; every other type stays as it was. */
  lemma TrafficEffect(q: seq<Msg>, traffic: Traffic, t: int)
    requires Possible(q, traffic)
    ensures !traffic.Taken? ==>
              Select(After(q, traffic), t) == Select(q, t) + (if traffic.Sent? then Pick(traffic.msg, t) else [])
    ensures traffic.Taken? && traffic.kind != t ==> Select(After(q, traffic), t) == Select(q, t)
    ensures traffic.Taken? && traffic.kind == t ==>
              Select(q, t) == [q[First(q, t)]] + Select(After(q, traffic), t)
  {
    match traffic
    case Still =>
    case Sent(m) => SendEffect(q, m);
    case Taken(u) => ReceiveEffect(q, u);
  }

  lemma TrafficBytes(q: seq<Msg>, traffic: Traffic)
    requires Possible(q, traffic)
    ensures Bytes(After(q, traffic)) <= Bytes(q) + (if traffic.Sent? then Size(traffic.msg) else 0)
  {
    match traffic
    case Still =>
    case Sent(m) => SendEffect(q, m);
    case Taken(u) => ReceiveEffect(q, u);
  }
}
