/**
 * Stock reservation of the product service: `StockService.handleOrderEvent` consumes an
 * `order_created` message, runs `checkAndReserve` (a read-only check of every order line,
 * then a decrement of every ordered product) and publishes `stock_validated` or
 * `stock_failed` for the order.
 */
module Stock {
  import opened Wrappers
  import opened JavaInt
  import opened Products

  // ----- the decoded message -----

  /**
   * One element of `data.products`: the text `toString()` gives for its `productId` and
   * `quantity` entries (a JSON number or string). `None` is a missing or null entry, whose
   * `toString()` throws; an element that is not an object behaves the same way.
   */
  datatype LineItem = LineItem(productId: Option<string>, quantity: Option<string>)

  /**
   * The message once Jackson has read it. `Malformed` is every failure before the
   * reservation starts: text that is not JSON, a missing `data` object, an `orderId` or
   * `clientId` that is not a string, `products` missing or not a list. A missing
   * `orderId` or `clientId` is not a failure there: it is read as null.
   */
  datatype Incoming =
    | Malformed
    | Message(orderId: Option<string>, clientId: Option<string>, products: seq<LineItem>)

  /** The `{event, data: {orderId, clientId}}` message sent to the stock queue. */
  datatype StockEvent = StockEvent(event: string, orderId: string, clientId: string)

  const STOCK_VALIDATED: string := "stock_validated"
  const STOCK_FAILED: string := "stock_failed"

  // ----- the check loop -----

  /** An order line after `Integer.parseInt` of both entries. */
  datatype Line = Line(productId: Int32, quantity: Int32)

  function ParseField(f: Option<string>): Option<Int32> {
    match f
    case None => None
    case Some(text) => ParseInt(text)
  }

  function ParseLine(item: LineItem): Option<Line> {
    match (ParseField(item.productId), ParseField(item.quantity))
    case (Some(id), Some(qty)) => Some(Line(id, qty))
    case _ => None
  }

  /** The check of one line against the stock: the product exists and its stock is not short. */
  predicate Fits(rows: map<int, Product>, l: Line) {
    l.productId in rows && rows[l.productId].quantity.Some? && !(rows[l.productId].quantity.value < l.quantity)
  }

  /** The named product exists but its stock is null, so `getQuantity() < qty` unboxes null. */
  predicate NullStock(rows: map<int, Product>, l: Line) {
    l.productId in rows && rows[l.productId].quantity.None?
  }

  predicate Acceptable(rows: map<int, Product>, item: LineItem) {
    ParseLine(item).Some? && Fits(rows, ParseLine(item).value)
  }

  /**
   * Where the check loop ends: after every line (`true`), at the first short or unknown
   * product (`false`), or at the first line that throws: its entries do not parse, or the
   * product it names has a null stock.
   */
  datatype Verdict = Passed | Short(at: nat) | Threw(at: nat)

  /** The check loop from line `i` on, every line against the same stock `rows`. */
  function CheckFrom(rows: map<int, Product>, items: seq<LineItem>, i: nat): (v: Verdict)
    requires i <= |items|
    decreases |items| - i
    ensures v.Passed? <==> forall j | i <= j < |items| :: Acceptable(rows, items[j])
    ensures !v.Passed? ==> i <= v.at < |items| && forall j | i <= j < v.at :: Acceptable(rows, items[j])
    ensures v.Short? ==>
      ParseLine(items[v.at]).Some? && !Fits(rows, ParseLine(items[v.at]).value) && !NullStock(rows, ParseLine(items[v.at]).value)
    ensures v.Threw? ==> ParseLine(items[v.at]).None? || NullStock(rows, ParseLine(items[v.at]).value)
  {
    if i == |items| then Passed
    else match ParseLine(items[i])
      case None => Threw(i)
      case Some(l) =>
        if l.productId !in rows then Short(i)
        else match rows[l.productId].quantity
          case None => Threw(i)
          case Some(stock) => if stock < l.quantity then Short(i) else CheckFrom(rows, items, i + 1)
  }

  function Check(rows: map<int, Product>, items: seq<LineItem>): Verdict {
    CheckFrom(rows, items, 0)
  }

  /** The check loop reads no line after the one it stops at. */
  lemma {:induction false} CheckFromIgnoresLaterLines(rows: map<int, Product>, a: seq<LineItem>, b: seq<LineItem>, i: nat)
    requires i <= |a| && !CheckFrom(rows, a, i).Passed?
    requires CheckFrom(rows, a, i).at < |b| && a[i..CheckFrom(rows, a, i).at + 1] == b[i..CheckFrom(rows, a, i).at + 1]
    ensures CheckFrom(rows, b, i) == CheckFrom(rows, a, i)
    decreases |a| - i
  {
    var k := CheckFrom(rows, a, i).at;
    SliceHead(a, b, i, k + 1);
    CheckFromStep(rows, a, b, i);
    if Acceptable(rows, a[i]) {
      CheckFromIgnoresLaterLines(rows, a, b, i + 1);
    }
  }

  /** Equal slices have equal first elements and equal remainders. */
  lemma SliceHead<T>(a: seq<T>, b: seq<T>, i: nat, n: nat)
    requires i < n <= |a| && n <= |b| && a[i..n] == b[i..n]
    ensures a[i] == b[i] && a[i + 1..n] == b[i + 1..n]
  {
    assert a[i] == a[i..n][0] && b[i] == b[i..n][0];
    assert a[i + 1..n] == a[i..n][1..] && b[i + 1..n] == b[i..n][1..];
  }

  /** Two order lists with the same line `i` agree there: both stop at it, or both go on. */
  lemma CheckFromStep(rows: map<int, Product>, a: seq<LineItem>, b: seq<LineItem>, i: nat)
    requires i < |a| && i < |b| && a[i] == b[i]
    ensures Acceptable(rows, a[i]) ==>
      CheckFrom(rows, a, i) == CheckFrom(rows, a, i + 1) && CheckFrom(rows, b, i) == CheckFrom(rows, b, i + 1)
    ensures !Acceptable(rows, a[i]) ==> CheckFrom(rows, a, i) == CheckFrom(rows, b, i) && CheckFrom(rows, a, i).at == i
  {
  }

  /** Replacing every line after the failing one changes nothing in the verdict. */
  lemma CheckIgnoresLaterLines(rows: map<int, Product>, items: seq<LineItem>, rest: seq<LineItem>)
    requires !Check(rows, items).Passed?
    ensures Check(rows, items[..Check(rows, items).at + 1] + rest) == Check(rows, items)
  {
    var k := Check(rows, items).at;
    var b := items[..k + 1] + rest;
    assert items[0..k + 1] == b[0..k + 1];
    CheckFromIgnoresLaterLines(rows, items, b, 0);
  }

  // ----- the decrement loop -----

  /** The parsed lines of an order whose every line parses. */
  function Parsed(items: seq<LineItem>): (ls: seq<Line>)
    requires forall j | 0 <= j < |items| :: ParseLine(items[j]).Some?
    ensures |ls| == |items| && forall j | 0 <= j < |items| :: ParseLine(items[j]) == Some(ls[j])
  {
    seq(|items|, j requires 0 <= j < |items| => ParseLine(items[j]).value)
  }

  /** Every line names a stored product whose stock is not null. */
  predicate Reservable(rows: map<int, Product>, ls: seq<Line>) {
    forall j | 0 <= j < |ls| :: ls[j].productId in rows && rows[ls[j].productId].quantity.Some?
  }

  /** One pass of the decrement loop: `setQuantity(getQuantity() - qty)` and `save`. */
  function Decrement(rows: map<int, Product>, l: Line): map<int, Product>
    requires l.productId in rows && rows[l.productId].quantity.Some?
  {
    var p := rows[l.productId];
    rows[l.productId := p.(quantity := Some(Sub(p.quantity.value, l.quantity)))]
  }

  /** The decrement loop over `ls`, each line applied to the stock the previous one left. */
  function Reserve(rows: map<int, Product>, ls: seq<Line>): (r: map<int, Product>)
    requires Reservable(rows, ls)
    ensures r.Keys == rows.Keys
    ensures forall id | id in rows && rows[id].quantity.Some? :: r[id].quantity.Some?
  {
    if ls == [] then rows
    else
      var init := ls[..|ls| - 1];
      assert Reservable(rows, init) by {
        forall j | 0 <= j < |init| ensures init[j] == ls[j] { }
      }
      Decrement(Reserve(rows, init), ls[|ls| - 1])
  }

  /** An order whose every line passed the check can be reserved. */
  lemma AcceptedReservable(rows: map<int, Product>, items: seq<LineItem>)
    requires forall j | 0 <= j < |items| :: Acceptable(rows, items[j])
    ensures forall j | 0 <= j < |items| :: ParseLine(items[j]).Some?
    ensures Reservable(rows, Parsed(items))
  {
    var ls := Parsed(items);
    forall j | 0 <= j < |ls| ensures ls[j].productId in rows && rows[ls[j].productId].quantity.Some? {
      assert Acceptable(rows, items[j]);
    }
  }

  /** The decrement loop one line further: the next prefix is reservable and one more decrement. */
  lemma ReserveStep(rows: map<int, Product>, ls: seq<Line>, k: nat)
    requires k < |ls| && Reservable(rows, ls)
    ensures Reservable(rows, ls[..k]) && Reservable(rows, ls[..k + 1])
    ensures ls[k].productId in Reserve(rows, ls[..k]) && Reserve(rows, ls[..k])[ls[k].productId].quantity.Some?
    ensures Reserve(rows, ls[..k + 1]) == Decrement(Reserve(rows, ls[..k]), ls[k])
  {
    assert Reservable(rows, ls[..k]) by {
      forall j | 0 <= j < k ensures ls[..k][j] == ls[j] { }
    }
    assert Reservable(rows, ls[..k + 1]) by {
      forall j | 0 <= j < k + 1 ensures ls[..k + 1][j] == ls[j] { }
    }
    assert ls[..k + 1][..k] == ls[..k];
  }

  /** The stock `checkAndReserve` leaves: decremented when the check passed, else untouched. */
  function AfterCheck(rows: map<int, Product>, items: seq<LineItem>): (r: map<int, Product>)
    ensures r.Keys == rows.Keys
    ensures !Check(rows, items).Passed? ==> r == rows
  {
    if Check(rows, items).Passed? then
      assert forall j | 0 <= j < |items| :: Acceptable(rows, items[j]);
      Reserve(rows, Parsed(items))
    else
      rows
  }

  /** The total quantity the lines `ls` request for product `id`. */
  function Requested(id: int, ls: seq<Line>): int {
    if ls == [] then 0
    else Requested(id, ls[..|ls| - 1]) + (if ls[|ls| - 1].productId == id then ls[|ls| - 1].quantity else 0)
  }

  /**
   * Every product with a stock ends with it lowered by the total its lines request (in
   * `int` arithmetic, so modulo 2^32), and keeps every other field; a product whose stock
   * is null is named by no line and keeps its row.
   */
  lemma {:induction false} ReserveEffect(rows: map<int, Product>, ls: seq<Line>, id: int)
    requires Reservable(rows, ls)
    requires id in rows
    ensures rows[id].quantity.None? ==> Reserve(rows, ls)[id] == rows[id]
    ensures rows[id].quantity.Some? ==>
      Reserve(rows, ls)[id] == rows[id].(quantity := Some(Wrap(rows[id].quantity.value - Requested(id, ls))))
  {
    if ls != [] {
      var init, last := ls[..|ls| - 1], ls[|ls| - 1];
      assert Reservable(rows, init) by {
        forall j | 0 <= j < |init| ensures init[j] == ls[j] { }
      }
      ReserveEffect(rows, init, id);
      var before := Reserve(rows, init);
      if rows[id].quantity.None? {
        assert last.productId != id;
        assert Reserve(rows, ls)[id] == before[id];
      } else {
        var x := rows[id].quantity.value - Requested(id, init);
        assert before[id] == rows[id].(quantity := Some(Wrap(x)));
        if last.productId == id {
          SubWrapped(x, last.quantity);
          assert Requested(id, ls) == Requested(id, init) + last.quantity;
          assert Reserve(rows, ls)[id] == before[id].(quantity := Some(Sub(Wrap(x), last.quantity)));
        } else {
          assert Requested(id, ls) == Requested(id, init);
          assert Reserve(rows, ls)[id] == before[id];
        }
      }
    }
  }

  /** A product no line names keeps its row. */
  lemma {:induction false} RequestedUnnamed(id: int, ls: seq<Line>)
    requires forall j | 0 <= j < |ls| :: ls[j].productId != id
    ensures Requested(id, ls) == 0
  {
    if ls != [] {
      RequestedUnnamed(id, ls[..|ls| - 1]);
    }
  }

  predicate DistinctProducts(ls: seq<Line>) {
    forall j, k | 0 <= j < k < |ls| :: ls[j].productId != ls[k].productId
  }

  lemma {:induction false} RequestedDistinct(ls: seq<Line>, j: nat)
    requires j < |ls| && DistinctProducts(ls)
    ensures Requested(ls[j].productId, ls) == ls[j].quantity
  {
    var init := ls[..|ls| - 1];
    if j == |ls| - 1 {
      RequestedUnnamed(ls[j].productId, init);
    } else {
      RequestedDistinct(init, j);
    }
  }

  /** Products the order does not mention keep their rows, whatever the verdict. */
  lemma UnmentionedProductsUnchanged(rows: map<int, Product>, items: seq<LineItem>, id: int)
    requires id in rows
    requires forall j | 0 <= j < |items| :: ParseLine(items[j]).Some? ==> ParseLine(items[j]).value.productId != id
    ensures AfterCheck(rows, items)[id] == rows[id]
  {
    if Check(rows, items).Passed? {
      var ls := Parsed(items);
      ReserveEffect(rows, ls, id);
      RequestedUnnamed(id, ls);
    }
  }

  /** No product has a negative stock (a null stock is not negative). */
  predicate NonNegative(rows: map<int, Product>) {
    forall id | id in rows && rows[id].quantity.Some? :: rows[id].quantity.value >= 0
  }

  /** A line that is the only one for its product, and fits, lowers it by its request alone. */
  lemma SoleLineReserved(rows: map<int, Product>, ls: seq<Line>, j: nat)
    requires Reservable(rows, ls) && j < |ls| && Requested(ls[j].productId, ls) == ls[j].quantity
    requires 0 <= ls[j].quantity <= rows[ls[j].productId].quantity.value
    ensures Reserve(rows, ls)[ls[j].productId].quantity == Some(rows[ls[j].productId].quantity.value - ls[j].quantity)
  {
    ReserveInRange(rows, ls, ls[j].productId);
  }

  /** A product whose total request keeps it inside the `int` range is lowered exactly by it. */
  lemma ReserveInRange(rows: map<int, Product>, ls: seq<Line>, id: int)
    requires Reservable(rows, ls) && id in rows && rows[id].quantity.Some?
    requires MIN <= rows[id].quantity.value - Requested(id, ls) <= MAX
    ensures Reserve(rows, ls)[id].quantity == Some(rows[id].quantity.value - Requested(id, ls))
  {
    var x := rows[id].quantity.value - Requested(id, ls);
    assert Reserve(rows, ls)[id].quantity == Some(Wrap(x)) by {
      ReserveEffect(rows, ls, id);
    }
    assert Wrap(x) == x;
  }

  /** Lines that fit, with distinct products and non-negative requests. */
  predicate FitsDistinct(rows: map<int, Product>, ls: seq<Line>) {
    && Reservable(rows, ls)
    && DistinctProducts(ls)
    && forall j | 0 <= j < |ls| :: 0 <= ls[j].quantity <= rows[ls[j].productId].quantity.value
  }

  /** Each product such lines name is lowered by exactly its request. */
  lemma DistinctLinesReserved(rows: map<int, Product>, ls: seq<Line>)
    requires FitsDistinct(rows, ls)
    ensures forall j | 0 <= j < |ls| ::
      Reserve(rows, ls)[ls[j].productId].quantity == Some(rows[ls[j].productId].quantity.value - ls[j].quantity)
  {
    forall j | 0 <= j < |ls|
      ensures Reserve(rows, ls)[ls[j].productId].quantity == Some(rows[ls[j].productId].quantity.value - ls[j].quantity)
    {
      RequestedDistinct(ls, j);
      SoleLineReserved(rows, ls, j);
    }
  }

  /** Such lines leave a table without negative stock without negative stock. */
  lemma DistinctLinesNonNegative(rows: map<int, Product>, ls: seq<Line>)
    requires FitsDistinct(rows, ls) && NonNegative(rows)
    ensures NonNegative(Reserve(rows, ls))
  {
    forall id | id in rows && Reserve(rows, ls)[id].quantity.Some?
      ensures Reserve(rows, ls)[id].quantity.value >= 0
    {
      if j :| 0 <= j < |ls| && ls[j].productId == id {
        RequestedDistinct(ls, j);
        SoleLineReserved(rows, ls, j);
      } else {
        ReserveEffect(rows, ls, id);
        RequestedUnnamed(id, ls);
      }
    }
  }

  /**
   * With distinct products and non-negative requests, a passed check lowers each named
   * product by exactly its request and leaves no stock negative that was not before.
   */
  lemma DistinctReservation(rows: map<int, Product>, items: seq<LineItem>)
    requires Check(rows, items).Passed?
    requires DistinctProducts(Parsed(items))
    requires forall j | 0 <= j < |items| :: Parsed(items)[j].quantity >= 0
    ensures forall j | 0 <= j < |items| ::
      var l := Parsed(items)[j];
      && AfterCheck(rows, items)[l.productId].quantity == Some(rows[l.productId].quantity.value - l.quantity)
      && rows[l.productId].quantity.value - l.quantity >= 0
    ensures NonNegative(rows) ==> NonNegative(AfterCheck(rows, items))
  {
    var ls := Parsed(items);
    AcceptedReservable(rows, items);
    forall j | 0 <= j < |items|
      ensures ls[j].quantity <= rows[ls[j].productId].quantity.value
    {
      assert Acceptable(rows, items[j]);
    }
    assert FitsDistinct(rows, ls);
    DistinctLinesReserved(rows, ls);
    if NonNegative(rows) {
      DistinctLinesNonNegative(rows, ls);
    }
  }

  /**
   * Lines are checked one by one against the stock before the order, so two lines for the
   * same product pass although together they ask for more than there is.
   */
  lemma RepeatedProductOverdraws()
    ensures
      var rows := map[1 := Product(1, Some("Café"), None, Some(9.5), Some(5))];
      var items := [LineItem(Some("1"), Some("3")), LineItem(Some("1"), Some("3"))];
      && Check(rows, items) == Passed
      && AfterCheck(rows, items)[1].quantity == Some(-1)
  {
    var rows := map[1 := Product(1, Some("Café"), None, Some(9.5), Some(5))];
    var items := [LineItem(Some("1"), Some("3")), LineItem(Some("1"), Some("3"))];
    assert ParseInt("1") == Some(1) && ParseInt("3") == Some(3);
    ReserveEffect(rows, Parsed(items), 1);
  }

  /** Quantities are never checked for sign: a negative request passes and adds stock. */
  lemma NegativeRequestAddsStock()
    ensures
      var rows := map[1 := Product(1, Some("Café"), None, Some(9.5), Some(5))];
      var items := [LineItem(Some("1"), Some("-4"))];
      && Check(rows, items) == Passed
      && AfterCheck(rows, items)[1].quantity == Some(9)
  {
    var rows := map[1 := Product(1, Some("Café"), None, Some(9.5), Some(5))];
    var items := [LineItem(Some("1"), Some("-4"))];
    assert ParseInt("1") == Some(1) && ParseInt("-4") == Some(-4);
    ReserveEffect(rows, Parsed(items), 1);
  }

  /** `int` subtraction wraps: a negative request on a full stock leaves it at MIN. */
  lemma NegativeRequestWraps()
    ensures
      var rows := map[1 := Product(1, Some("Café"), None, Some(9.5), Some(MAX))];
      var items := [LineItem(Some("1"), Some("-1"))];
      && Check(rows, items) == Passed
      && AfterCheck(rows, items)[1].quantity == Some(MIN)
  {
    var rows := map[1 := Product(1, Some("Café"), None, Some(9.5), Some(MAX))];
    var items := [LineItem(Some("1"), Some("-1"))];
    assert ParseInt("1") == Some(1) && ParseInt("-1") == Some(-1);
    ReserveEffect(rows, Parsed(items), 1);
  }

  // ----- the whole handler -----

  /** What `handleOrderEvent` leaves: the new stock and the event it sent, if any. */
  datatype Handled = Handled(rows: map<int, Product>, published: Option<StockEvent>)

  /**
   * `handleOrderEvent`. Every exception is caught. One thrown before the reservation, or
   * by the check loop (an entry that does not parse, a null stock), leaves the stock as it
   * was and sends nothing. A missing `orderId` or `clientId` makes `Map.of` throw after
   * `checkAndReserve`, so the decrements stay and nothing is sent. Otherwise one event is
   * sent, echoing both ids, and it is `stock_validated` exactly when the check passed.
   */
  function HandleOrder(rows: map<int, Product>, msg: Incoming): (h: Handled)
    ensures h.rows.Keys == rows.Keys
    ensures (msg.Malformed? || Check(rows, msg.products).Threw?) ==> h == Handled(rows, None)
    ensures msg.Message? ==> h.rows == AfterCheck(rows, msg.products) && (h.rows != rows ==> Check(rows, msg.products).Passed?)
    ensures h.published.Some? <==>
      msg.Message? && msg.orderId.Some? && msg.clientId.Some? && !Check(rows, msg.products).Threw?
    ensures h.published.Some? ==>
      && h.published.value.orderId == msg.orderId.value
      && h.published.value.clientId == msg.clientId.value
      && h.published.value.event == (if Check(rows, msg.products).Passed? then STOCK_VALIDATED else STOCK_FAILED)
  {
    match msg
    case Malformed => Handled(rows, None)
    case Message(orderId, clientId, items) =>
      var verdict := Check(rows, items);
      if verdict.Threw? then Handled(rows, None)
      else
        var after := AfterCheck(rows, items);
        if orderId.None? || clientId.None? then Handled(after, None)
        else
          var event := if verdict.Passed? then STOCK_VALIDATED else STOCK_FAILED;
          Handled(after, Some(StockEvent(event, orderId.value, clientId.value)))
  }

  /** Stock {A: 5, B: 0} and an order for {A: 3, B: 1}: `stock_failed`, stock untouched. */
  lemma InfeasibleOrderExample()
    ensures
      var rows := map[1 := Product(1, Some("A"), None, None, Some(5)), 2 := Product(2, Some("B"), None, None, Some(0))];
      var msg := Message(Some("o1"), Some("c1"), [LineItem(Some("1"), Some("3")), LineItem(Some("2"), Some("1"))]);
      HandleOrder(rows, msg) == Handled(rows, Some(StockEvent(STOCK_FAILED, "o1", "c1")))
  {
    assert ParseInt("1") == Some(1) && ParseInt("2") == Some(2) && ParseInt("3") == Some(3);
  }

  /**
   * Stock {A: 5, B: null} and an order for {A: 3, B: 1}: the null stock throws, so the
   * stock is untouched and no answer is sent; the order is never settled.
   */
  lemma NullStockExample()
    ensures
      var rows := map[1 := Product(1, Some("A"), None, None, Some(5)), 2 := Product(2, Some("B"), None, None, None)];
      var msg := Message(Some("o1"), Some("c1"), [LineItem(Some("1"), Some("3")), LineItem(Some("2"), Some("1"))]);
      Check(rows, msg.products) == Threw(1) && HandleOrder(rows, msg) == Handled(rows, None)
  {
    assert ParseInt("1") == Some(1) && ParseInt("2") == Some(2) && ParseInt("3") == Some(3);
  }

  /** Stock {A: 10} and an order for {A: 4}: `stock_validated`, stock {A: 6}. */
  lemma HappyPathExample()
    ensures
      var rows := map[1 := Product(1, Some("A"), None, None, Some(10))];
      var msg := Message(Some("o1"), Some("c1"), [LineItem(Some("1"), Some("4"))]);
      HandleOrder(rows, msg) == Handled(map[1 := Product(1, Some("A"), None, None, Some(6))], Some(StockEvent(STOCK_VALIDATED, "o1", "c1")))
  {
    var rows := map[1 := Product(1, Some("A"), None, None, Some(10))];
    var items := [LineItem(Some("1"), Some("4"))];
    assert ParseInt("1") == Some(1) && ParseInt("4") == Some(4);
    assert Parsed(items) == [Line(1, 4)];
    assert Reserve(rows, [Line(1, 4)]) == Decrement(Reserve(rows, []), Line(1, 4));
  }

  /** The listener of the order queue, publishing to the stock queue. */
  class StockService {
    const repo: ProductRepository
    /** The messages sent to the stock queue, oldest first. */
    var sent: seq<StockEvent>

    constructor (repo: ProductRepository)
      ensures this.repo == repo && sent == []
    {
      this.repo := repo;
      sent := [];
    }

    /**
     * `checkAndReserve`: a read-only loop that stops at the first failing line, then, if
     * every line passed, the decrement loop of `DecrementAll`.
     */
    method CheckAndReserve(items: seq<LineItem>) returns (verdict: Verdict)
      requires repo.Valid()
      modifies repo
      ensures repo.Valid() && repo.nextId == old(repo.nextId)
      ensures verdict == Check(old(repo.rows), items)
      ensures repo.rows == AfterCheck(old(repo.rows), items)
    {
      ghost var rows0 := repo.rows;
      var i := 0;
      while i < |items|
        invariant 0 <= i <= |items|
        invariant repo.rows == rows0
        invariant Check(rows0, items) == CheckFrom(rows0, items, i)
      {
        var id := ParseField(items[i].productId);
        if id.None? {
          return Threw(i);
        }
        var qty := ParseField(items[i].quantity);
        if qty.None? {
          return Threw(i);
        }
        var found := repo.FindById(id.value);
        if found.None? {
          return Short(i);
        }
        var stock := found.value.quantity;
        if stock.None? {
          return Threw(i);
        }
        if stock.value < qty.value {
          return Short(i);
        }
        i := i + 1;
      }
      DecrementAll(items);
      verdict := Passed;
    }

    /** The second loop of `checkAndReserve`: decrement and save the product of each line. */
    method DecrementAll(items: seq<LineItem>)
      requires repo.Valid()
      requires Check(repo.rows, items).Passed?
      modifies repo
      ensures repo.Valid() && repo.nextId == old(repo.nextId)
      ensures repo.rows == AfterCheck(old(repo.rows), items)
    {
      ghost var rows0 := repo.rows;
      assert forall j | 0 <= j < |items| :: Acceptable(rows0, items[j]);
      ghost var ls := Parsed(items);
      AcceptedReservable(rows0, items);
      assert forall j | 0 <= j < |items| :: ParseLine(items[j]) == Some(ls[j]);
      assert ls[..0] == [];

      var k := 0;
      while k < |items|
        invariant 0 <= k <= |items|
        invariant repo.Valid() && repo.nextId == old(repo.nextId)
        invariant repo.rows == Reserve(rows0, ls[..k])
      {
        var id := ParseField(items[k].productId).value;
        var qty := ParseField(items[k].quantity).value;
        assert ls[k] == Line(id, qty);
        ReserveStep(rows0, ls, k);
        var found := repo.FindById(id);
        var prod := found.value;
        prod := prod.(quantity := Some(Sub(prod.quantity.value, qty)));
        var _ := repo.Save(prod);
        assert repo.rows == Decrement(Reserve(rows0, ls[..k]), ls[k]);
        k := k + 1;
      }
      assert ls[..|items|] == ls;
    }

    /** `handleOrderEvent`: decode, reserve, then send the outcome to the stock queue. */
    method HandleOrderEvent(msg: Incoming)
      requires repo.Valid()
      modifies this, repo
      ensures repo.Valid() && repo.nextId == old(repo.nextId)
      ensures repo.rows == HandleOrder(old(repo.rows), msg).rows
      ensures sent == old(sent) + match HandleOrder(old(repo.rows), msg).published
        case Some(e) => [e]
        case None => []
    {
      if msg.Malformed? {
        return;
      }
      var verdict := CheckAndReserve(msg.products);
      if verdict.Threw? {
        return;
      }
      if msg.orderId.None? || msg.clientId.None? {
        return;
      }
      var event := if verdict.Passed? then STOCK_VALIDATED else STOCK_FAILED;
      sent := sent + [StockEvent(event, msg.orderId.value, msg.clientId.value)];
    }
  }
}
