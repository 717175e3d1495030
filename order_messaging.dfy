/**
 * The order service's RabbitMQ module: the connection loop with its retry counter, the
 * consumer of stock replies that moves an order to its new status, and `publishOrderEvent`,
 * which announces a new order. The broker and the order collection are modelled by what
 * the module does to them: the calls it makes are appended to a log, and the orders are a
 * map from id to document.
 */
module OrderMessaging {
  import opened Wrappers
  import Stock
  import Products

  const PENDING: string := "pending"
  const VALIDATED: string := "validated"
  const FAILED: string := "failed"

  const ORDER_CREATED: string := "order_created"
  const ORDER_EVENTS: string := "order_events"

  /** One element of an order's `products`; the numbers are JavaScript numbers. */
  datatype OrderLine = OrderLine(productId: string, quantity: real, price: real)

  /** An order document: its `_id` and the fields of the schema (`createdAt` may be unset). */
  datatype Order = Order(
    id: string,
    clientId: string,
    products: seq<OrderLine>,
    orderStatus: string,
    createdAt: Option<int>)

  /** The `data` part of the `order_created` message. */
  datatype OrderData = OrderData(
    orderId: string,
    clientId: string,
    products: seq<OrderLine>,
    orderStatus: string,
    createdAt: Option<int>)

  /** A message put on the order queue: its `event` name and its `data`. */
  datatype OrderEvent = OrderEvent(event: string, data: OrderData)

  /** A delivery from the stock queue: its delivery tag and its body once parsed. */
  datatype Delivery = Delivery(tag: nat, body: Option<Stock.StockEvent>)

  /** A call the module makes on the order collection or on the broker, in order. */
  datatype Effect =
    | StatusUpdated(orderId: string, status: string)
    | Acked(tag: nat)
    | Sent(queue: string, message: OrderEvent)

  /**
   * The status a stock reply gives its order: `stock_validated` validates it,
   * `stock_failed` fails it, and any other event leaves it pending.
   */
  function StatusFor(event: string): (s: string)
    ensures s == VALIDATED <==> event == Stock.STOCK_VALIDATED
    ensures s == FAILED <==> event == Stock.STOCK_FAILED
    ensures s == PENDING <==> event != Stock.STOCK_VALIDATED && event != Stock.STOCK_FAILED
  {
    if event == Stock.STOCK_VALIDATED then VALIDATED
    else if event == Stock.STOCK_FAILED then FAILED
    else PENDING
  }

  /**
   * A reply the stock service sends for an order moves that order to `validated` exactly
   * when the stock check passed, and to `failed` otherwise; never back to `pending`.
   */
  lemma StockReplyDecidesStatus(rows: map<int, Products.Product>, msg: Stock.Incoming)
    requires Stock.HandleOrder(rows, msg).published.Some?
    ensures msg.Message?
    ensures var e := Stock.HandleOrder(rows, msg).published.value;
      && e.orderId == msg.orderId.value
      && (StatusFor(e.event) == VALIDATED <==> Stock.Check(rows, msg.products).Passed?)
      && (StatusFor(e.event) == FAILED <==> !Stock.Check(rows, msg.products).Passed?)
  {
  }

  /** `findByIdAndUpdate(id, {orderStatus})`: the named order takes the status; a missing id changes nothing. */
  function WithStatus(orders: map<string, Order>, id: string, status: string): (r: map<string, Order>)
    ensures r.Keys == orders.Keys
    ensures id in orders ==> r[id] == orders[id].(orderStatus := status)
    ensures forall other | other in orders && other != id :: r[other] == orders[other]
  {
    if id in orders then orders[id := orders[id].(orderStatus := status)] else orders
  }

  /** The `order_created` message for an order: every field of the document is copied. */
  function OrderCreated(order: Order): (m: OrderEvent)
    ensures m.event == ORDER_CREATED
  {
    OrderEvent(ORDER_CREATED,
      OrderData(order.id, order.clientId, order.products, order.orderStatus, order.createdAt))
  }

  /** The message names its order completely: two orders give the same message exactly when they are equal. */
  lemma OrderCreatedInjective(a: Order, b: Order)
    ensures OrderCreated(a) == OrderCreated(b) <==> a == b
  {
    if OrderCreated(a) == OrderCreated(b) {
      assert a.id == OrderCreated(a).data.orderId == OrderCreated(b).data.orderId == b.id;
    }
  }

  /** What one attempt of the connection loop meets. */
  datatype Attempt =
    /** `amqp.connect` or `createChannel` throws: no channel is assigned. */
    | Refused
    /** The channel is created and assigned, then an `assertQueue` throws. */
    | QueueRejected
    /** Both queues are asserted and the consumer is registered. */
    | Ready

  /** How `connectRabbitMQ` ends. */
  datatype ConnectOutcome =
    /** Test mode: no attempt is made. */
    | SkippedInTest
    /** A non-positive `retries`: the loop is never entered. */
    | NoAttempt
    /** The given attempt (counting from 1) succeeded. */
    | Connected(attempts: nat)
    /** Every attempt failed; the process exits with status 1. */
    | Exited(attempts: nat)

  /** The outcome of the loop from attempt `k` (counting from 0) with `retries` attempts allowed. */
  function OutcomeFrom(retries: int, attempt: nat -> Attempt, k: nat): ConnectOutcome
    requires k < retries
    decreases retries - k
  {
    if attempt(k) == Ready then Connected(k + 1)
    else if k + 1 == retries then Exited(retries)
    else OutcomeFrom(retries, attempt, k + 1)
  }

  /** The outcome of the loop outside test mode. */
  function LoopOutcome(retries: int, attempt: nat -> Attempt): ConnectOutcome {
    if retries <= 0 then NoAttempt else OutcomeFrom(retries, attempt, 0)
  }

  lemma {:induction false} OutcomeFromBounds(retries: int, attempt: nat -> Attempt, k: nat)
    requires k < retries
    requires forall j: nat | j < k :: attempt(j) != Ready
    ensures var o := OutcomeFrom(retries, attempt, k);
      && (o.Connected? || o.Exited?)
      && (o.Connected? ==> 1 <= o.attempts <= retries && attempt(o.attempts - 1) == Ready
                           && forall j: nat | j < o.attempts - 1 :: attempt(j) != Ready)
      && (o.Exited? ==> o.attempts == retries && forall j: nat | j < retries :: attempt(j) != Ready)
    decreases retries - k
  {
    if attempt(k) != Ready && k + 1 < retries {
      OutcomeFromBounds(retries, attempt, k + 1);
    }
  }

  /**
   * The loop makes at most `retries` attempts and stops at the first that succeeds; it
   * exits only when all `retries` attempts failed.
   */
  lemma LoopOutcomeBounds(retries: int, attempt: nat -> Attempt)
    ensures var o := LoopOutcome(retries, attempt);
      && (o.NoAttempt? <==> retries <= 0)
      && !o.SkippedInTest?
      && (o.Connected? ==> 1 <= o.attempts <= retries && attempt(o.attempts - 1) == Ready
                           && forall j: nat | j < o.attempts - 1 :: attempt(j) != Ready)
      && (o.Exited? ==> o.attempts == retries && forall j: nat | j < retries :: attempt(j) != Ready)
  {
    if retries > 0 {
      OutcomeFromBounds(retries, attempt, 0);
    }
  }

  /** The order collection, keyed by `_id`. */
  class OrderStore {
    var orders: map<string, Order>

    constructor (orders: map<string, Order>)
      ensures this.orders == orders
    {
      this.orders := orders;
    }

    /** `Order.findByIdAndUpdate(id, {orderStatus: status})`. */
    method UpdateStatus(id: string, status: string)
      modifies this
      ensures orders == WithStatus(old(orders), id, status)
    {
      if id in orders {
        orders := orders[id := orders[id].(orderStatus := status)];
      }
    }
  }

  /** The module's state: the `channel` variable, whether the consumer is registered, and the calls made. */
  class RabbitMQ {
    /** `NODE_ENV === 'test'`. */
    const testMode: bool
    const store: OrderStore
    var channelOpen: bool
    var consuming: bool
    var log: seq<Effect>

    constructor (testMode: bool, store: OrderStore)
      ensures this.testMode == testMode && this.store == store
      ensures !channelOpen && !consuming && log == []
    {
      this.testMode := testMode;
      this.store := store;
      channelOpen := false;
      consuming := false;
      log := [];
    }

    /**
     * `connectRabbitMQ(retries)`, with `attempt(k)` what the k-th attempt (from 0) meets.
     * The outcome is `LoopOutcome(retries, attempt)` outside test mode; the channel is assigned
     * by every attempt that got as far as creating it, and the consumer is registered on
     * success only.
     */
    method Connect(retries: int, attempt: nat -> Attempt) returns (outcome: ConnectOutcome)
      modifies this
      ensures testMode ==> outcome == SkippedInTest && channelOpen == old(channelOpen) && consuming == old(consuming)
      ensures !testMode ==> outcome == LoopOutcome(retries, attempt)
      ensures outcome.Connected? ==> channelOpen && consuming
      ensures outcome.Exited? ==>
        && consuming == old(consuming)
        && (channelOpen <==> old(channelOpen) || exists j: nat | j < retries :: attempt(j) == QueueRejected)
      ensures outcome.NoAttempt? ==> channelOpen == old(channelOpen) && consuming == old(consuming)
      ensures log == old(log)
    {
      if testMode {
        return SkippedInTest;
      }
      var left := retries;
      var k: nat := 0;
      while left > 0
        invariant left <= retries && k == retries - left
        invariant k == 0 || left > 0
        invariant forall j: nat | j < k :: attempt(j) != Ready
        invariant k > 0 ==> LoopOutcome(retries, attempt) == OutcomeFrom(retries, attempt, k)
        invariant consuming == old(consuming) && log == old(log)
        invariant channelOpen <==> old(channelOpen) || exists j: nat | j < k :: attempt(j) == QueueRejected
        decreases left
      {
        var a := attempt(k);
        if a != Refused {
          channelOpen := true;
        }
        if a == Ready {
          consuming := true;
          return Connected(k + 1);
        }
        left := left - 1;
        k := k + 1;
        if left == 0 {
          return Exited(k);
        }
      }
      return NoAttempt;
    }

    /**
     * The consumer of `stock_events`. A null delivery is ignored. A body that does not parse
     * throws before any update, so nothing is updated or acknowledged. Otherwise the order
     * named by `data.orderId` takes the status the event maps to, and then the delivery is
     * acknowledged.
     */
    method OnStockReply(msg: Option<Delivery>)
      modifies this, store
      ensures msg.None? || msg.value.body.None? ==> store.orders == old(store.orders) && log == old(log)
      ensures msg.Some? && msg.value.body.Some? ==>
        var reply := msg.value.body.value;
        && store.orders == WithStatus(old(store.orders), reply.orderId, StatusFor(reply.event))
        && log == old(log) + [StatusUpdated(reply.orderId, StatusFor(reply.event)), Acked(msg.value.tag)]
      ensures channelOpen == old(channelOpen) && consuming == old(consuming)
    {
      if msg.None? || msg.value.body.None? {
        return;
      }
      var content := msg.value.body.value;
      var orderId := content.orderId;
      var event := content.event;
      var newStatus := PENDING;
      if event == Stock.STOCK_VALIDATED {
        newStatus := VALIDATED;
      }
      if event == Stock.STOCK_FAILED {
        newStatus := FAILED;
      }
      store.UpdateStatus(orderId, newStatus);
      log := log + [StatusUpdated(orderId, newStatus)];
      log := log + [Acked(msg.value.tag)];
    }

    /**
     * `publishOrderEvent`: nothing in test mode or without a channel; otherwise exactly one
     * `order_created` message for the order, to `order_events`.
     */
    method PublishOrderEvent(order: Order)
      modifies this
      ensures testMode || !channelOpen ==> log == old(log)
      ensures !testMode && channelOpen ==> log == old(log) + [Sent(ORDER_EVENTS, OrderCreated(order))]
      ensures channelOpen == old(channelOpen) && consuming == old(consuming)
    {
      if testMode {
        return;
      }
      if !channelOpen {
        return;
      }
      var message := OrderEvent(ORDER_CREATED,
        OrderData(order.id, order.clientId, order.products, order.orderStatus, order.createdAt));
      log := log + [Sent(ORDER_EVENTS, message)];
    }
  }
}
