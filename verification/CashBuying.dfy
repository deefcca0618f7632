/**
 Cash-only buying: the guard that computes what one cycle may spend, and the loop that spends it.
 */
module CashBuying {
  import opened Common
  import opened ProviderOrders

  type Price = p: real | 0.0 < p witness 1.0

  /** A stored provider buy order. */
  datatype BuyOrder = BuyOrder(status: OrderStatus, qty: real, filledQty: real, limitPrice: real, fillPrice: real)

  datatype ProviderPosition = ProviderPosition(symbol: string, qty: real, marketValue: real, currentPrice: real,
                                               avgEntry: real)

  // ---- The guard ------------------------------------------------------------------------------

  /** Cash still owed by an order: never negative, and nothing once it is filled or unpriced. */
  function PendingValue(o: BuyOrder): (value: real)
    ensures value >= 0.0
    ensures o.filledQty <= 0.0 < o.qty && o.limitPrice > 0.0 ==> value == o.qty * o.limitPrice
    ensures o.qty <= o.filledQty ==> value == 0.0
  {
    var remaining := MaxReal(o.qty - MaxReal(o.filledQty, 0.0), 0.0);
    if remaining <= 0.0 then 0.0
    else
      var price := if o.limitPrice > 0.0 then o.limitPrice else o.fillPrice;
      if price > 0.0 then remaining * price else 0.0
  }

  /** Of the final statuses this list does not name done-for-day, so such an order stays reserved. */
  predicate NoLongerReserved(s: OrderStatus) {
    s == Filled || s == Canceled || s == Expired || s == Rejected || s == Stopped
  }

  function Reserved(orders: seq<BuyOrder>): (sum: real)
    ensures sum >= 0.0
  {
    if orders == [] then 0.0
    else
      var last := orders[|orders| - 1];
      Reserved(orders[..|orders| - 1]) + if NoLongerReserved(last.status) then 0.0 else PendingValue(last)
  }

  method PendingBuyReservations(orders: seq<BuyOrder>) returns (reserved: real)
    ensures reserved == Reserved(orders)
  {
    reserved := 0.0;
    for i := 0 to |orders|
      invariant reserved == Reserved(orders[..i])
    {
      assert orders[..i + 1][..i] == orders[..i];
      if !NoLongerReserved(orders[i].status) {
        reserved := reserved + PendingValue(orders[i]);
      }
    }
    assert orders[..|orders|] == orders;
  }

  function LongValue(p: ProviderPosition): (value: real)
    ensures value >= 0.0
  {
    if p.qty <= 0.0 then 0.0
    else if Abs(p.marketValue) > 0.0 then Abs(p.marketValue)
    else if p.currentPrice > 0.0 then p.qty * p.currentPrice
    else if p.avgEntry > 0.0 then p.qty * p.avgEntry
    else 0.0
  }

  function LongExposure(positions: seq<ProviderPosition>): (sum: real)
    ensures sum >= 0.0
  {
    if positions == [] then 0.0
    else LongExposure(positions[..|positions| - 1]) + LongValue(positions[|positions| - 1])
  }

  function Exposure(positions: seq<ProviderPosition>, localExposure: real): real {
    MaxReal(LongExposure(positions), localExposure)
  }

  /** Cash that may be spent without margin, after everything held and everything pending. */
  function DeployableCash(providerCash: real, equity: real, positions: seq<ProviderPosition>,
                          orders: seq<BuyOrder>, localExposure: real): real {
    MinReal(providerCash, equity - Exposure(positions, localExposure) - Reserved(orders))
  }

  lemma PendingValueIs(o: BuyOrder)
    ensures var left := o.qty - (if o.filledQty > 0.0 then o.filledQty else 0.0);
            var price := if o.limitPrice > 0.0 then o.limitPrice else o.fillPrice;
            PendingValue(o) == if left > 0.0 && price > 0.0 then left * price else 0.0
  {
  }

  /**
   What one more order reserves: the unfilled rest at its limit price, or without one at its fill
   price, if it is still working or only done for the day; any other order reserves nothing.
   */
  lemma OneMoreOrderReserves(orders: seq<BuyOrder>, o: BuyOrder)
    ensures var left := o.qty - (if o.filledQty > 0.0 then o.filledQty else 0.0);
            var price := if o.limitPrice > 0.0 then o.limitPrice else o.fillPrice;
            Reserved(orders + [o]) == Reserved(orders)
              + if (o.status == Working || o.status == DoneForDay) && left > 0.0 && price > 0.0
                then left * price else 0.0
  {
    PendingValueIs(o);
    assert (orders + [o])[..|orders|] == orders;
    assert Reserved(orders + [o]) == Reserved(orders) + if NoLongerReserved(o.status) then 0.0 else PendingValue(o);
  }

  /**
   What one more position exposes: its market value, or without one its quantity at the current price,
   or without one at the entry price; a short position exposes nothing.
   */
  lemma OneMorePositionExposes(positions: seq<ProviderPosition>, q: ProviderPosition)
    ensures LongExposure(positions + [q]) == LongExposure(positions)
              + if q.qty <= 0.0 then 0.0
                else if q.marketValue > 0.0 then q.marketValue
                else if q.marketValue < 0.0 then -q.marketValue
                else if q.currentPrice > 0.0 then q.qty * q.currentPrice
                else if q.avgEntry > 0.0 then q.qty * q.avgEntry
                else 0.0
  {
    assert (positions + [q])[..|positions|] == positions;
    assert LongExposure(positions + [q]) == LongExposure(positions) + LongValue(q);
  }

  /** The deployable cash is the most that leaves no margin, on either of the two accounts of it. */
  lemma DeployableIsTheMost(cash: real, equity: real, positions: seq<ProviderPosition>, orders: seq<BuyOrder>,
                            localExposure: real, spend: real)
    ensures spend <= DeployableCash(cash, equity, positions, orders, localExposure) <==>
            && spend <= cash
            && LongExposure(positions) + Reserved(orders) + spend <= equity
            && localExposure + Reserved(orders) + spend <= equity
  {
  }

  // ---- The buying loop ------------------------------------------------------------------------

  /** A candidate with what the outside says: its quote, and whether the broker accepts the order. */
  datatype Attempt = Attempt(symbol: string, quote: Option<Price>, accepted: bool)

  datatype Purchase = Purchase(symbol: string, shares: int, price: Price)

  datatype Limits = Limits(slots: int, budget: real, minPrice: real)

  datatype Cycle = Cycle(cash: real, bought: seq<Purchase>, open: set<string>, stopped: bool)

  function OrderValue(price: Price, shares: int): real {
    shares as real * price
  }

  function Shares(budget: real, price: Price): int {
    (budget / price).Floor
  }

  /** What one candidate does to the cycle. */
  function Try(c: Cycle, a: Attempt, limits: Limits): Cycle {
    if c.stopped then c
    else if |c.bought| >= limits.slots then c.(stopped := true)
    else if a.quote.None? || a.quote.value < limits.minPrice then c
    else
      var shares := Shares(limits.budget, a.quote.value);
      var value := OrderValue(a.quote.value, shares);
      if shares <= 0 || c.cash <= 0.0 || c.cash - value < 0.0 then c
      else if value > c.cash * 0.95 then c.(stopped := true)
      else if a.symbol in c.open || !a.accepted then c
      else Cycle(c.cash - value, c.bought + [Purchase(a.symbol, shares, a.quote.value)], c.open + {a.symbol}, false)
  }

  function TryAll(cash: real, open: set<string>, attempts: seq<Attempt>, limits: Limits): Cycle {
    if attempts == [] then Cycle(cash, [], open, false)
    else Try(TryAll(cash, open, attempts[..|attempts| - 1], limits), attempts[|attempts| - 1], limits)
  }

  function Spent(bought: seq<Purchase>): real {
    if bought == [] then 0.0
    else
      var last := bought[|bought| - 1];
      Spent(bought[..|bought| - 1]) + OrderValue(last.price, last.shares)
  }

  function SymbolsOf(bought: seq<Purchase>): set<string> {
    set p | p in bought :: p.symbol
  }

  /** As many whole shares as the budget of one position allows, at an acceptable price. */
  predicate WithinBudget(p: Purchase, limits: Limits) {
    && p.shares >= 1 && p.price >= limits.minPrice
    && OrderValue(p.price, p.shares) <= limits.budget < OrderValue(p.price, p.shares + 1)
  }

  ghost predicate Sound(c: Cycle, cash: real, open: set<string>, limits: Limits) {
    && c.cash == cash - Spent(c.bought)
    && (cash > 0.0 ==> c.cash > 0.0)
    && (cash <= 0.0 ==> c.bought == [])
    && |c.bought| <= Max(limits.slots, 0)
    && (forall p :: p in c.bought ==> WithinBudget(p, limits) && p.symbol !in open)
    && (forall i, j :: 0 <= i < j < |c.bought| ==> c.bought[i].symbol != c.bought[j].symbol)
    && c.open == open + SymbolsOf(c.bought)
  }

  lemma Bracket(budget: real, price: Price, low: real, high: real)
    requires low <= budget / price < high
    ensures low * price <= budget < high * price
  {
    var ratio := budget / price;
    assert ratio * price == budget;
    assert (high - ratio) * price > 0.0;
    assert (ratio - low) * price >= 0.0;
  }

  lemma WholeSharesFillTheBudget(budget: real, price: Price)
    ensures OrderValue(price, Shares(budget, price)) <= budget < OrderValue(price, Shares(budget, price) + 1)
  {
    var n := Shares(budget, price);
    var low, high := n as real, (n + 1) as real;
    Bracket(budget, price, low, high);
    assert OrderValue(price, n) == low * price;
    assert OrderValue(price, n + 1) == high * price;
  }

  lemma OneMorePurchase(bought: seq<Purchase>, p: Purchase)
    ensures Spent(bought + [p]) == Spent(bought) + OrderValue(p.price, p.shares)
    ensures SymbolsOf(bought + [p]) == SymbolsOf(bought) + {p.symbol}
  {
    assert (bought + [p])[..|bought|] == bought;
  }

  lemma NewSymbolIsNotBought(bought: seq<Purchase>, p: Purchase, open: set<string>)
    requires SymbolsOf(bought) <= open && p.symbol !in open
    ensures forall q :: q in bought ==> q.symbol != p.symbol
  {
    forall q | q in bought ensures q.symbol != p.symbol {
      assert q.symbol in SymbolsOf(bought);
    }
  }

  lemma PurchaseKeepsSound(c: Cycle, p: Purchase, cash: real, open: set<string>, limits: Limits)
    requires Sound(c, cash, open, limits) && |c.bought| < limits.slots
    requires WithinBudget(p, limits) && p.symbol !in c.open
    requires c.cash > 0.0 && OrderValue(p.price, p.shares) <= c.cash * 0.95
    ensures Sound(Cycle(c.cash - OrderValue(p.price, p.shares), c.bought + [p], c.open + {p.symbol}, false),
                  cash, open, limits)
  {
    OneMorePurchase(c.bought, p);
    NewSymbolIsNotBought(c.bought, p, c.open);
  }

  lemma TryKeepsSound(c: Cycle, a: Attempt, cash: real, open: set<string>, limits: Limits)
    requires Sound(c, cash, open, limits)
    ensures Sound(Try(c, a, limits), cash, open, limits)
  {
    var c' := Try(c, a, limits);
    if c'.bought != c.bought {
      var p := c'.bought[|c.bought|];
      WholeSharesFillTheBudget(limits.budget, p.price);
      PurchaseKeepsSound(c, p, cash, open, limits);
    }
  }

  /**
   Whatever quotes and answers come back: purchases are distinct new symbols within their budget,
   there are no more than the slots, and cash that was positive stays strictly positive.
   */
  lemma {:induction false} BuyingIsSound(cash: real, open: set<string>, attempts: seq<Attempt>, limits: Limits)
    ensures Sound(TryAll(cash, open, attempts, limits), cash, open, limits)
  {
    if attempts != [] {
      BuyingIsSound(cash, open, attempts[..|attempts| - 1], limits);
      TryKeepsSound(TryAll(cash, open, attempts[..|attempts| - 1], limits), attempts[|attempts| - 1],
                    cash, open, limits);
    }
  }

  lemma {:induction false} StoppedStaysStopped(cash: real, open: set<string>, attempts: seq<Attempt>, n: nat,
                                               limits: Limits)
    requires n <= |attempts| && TryAll(cash, open, attempts[..n], limits).stopped
    ensures TryAll(cash, open, attempts, limits) == TryAll(cash, open, attempts[..n], limits)
    decreases |attempts|
  {
    if n < |attempts| {
      assert attempts[..|attempts| - 1][..n] == attempts[..n];
      StoppedStaysStopped(cash, open, attempts[..|attempts| - 1], n, limits);
    } else {
      assert attempts[..n] == attempts;
    }
  }

  /** The loop over the candidates, best first. */
  method BuyCandidates(cash: real, open: set<string>, attempts: seq<Attempt>, limits: Limits)
    returns (remaining: real, bought: seq<Purchase>, nowOpen: set<string>)
    ensures var c := TryAll(cash, open, attempts, limits);
            remaining == c.cash && bought == c.bought && nowOpen == c.open
  {
    remaining, bought, nowOpen := cash, [], open;
    for i := 0 to |attempts|
      invariant Cycle(remaining, bought, nowOpen, false) == TryAll(cash, open, attempts[..i], limits)
    {
      var a := attempts[i];
      assert attempts[..i + 1][..i] == attempts[..i];
      if |bought| >= limits.slots {
        StoppedStaysStopped(cash, open, attempts, i + 1, limits);
        return;
      }
      if a.quote.None? || a.quote.value < limits.minPrice {
        continue;
      }
      var price := a.quote.value;
      var shares := Shares(limits.budget, price);
      if shares <= 0 {
        continue;
      }
      var value := OrderValue(price, shares);
      if remaining <= 0.0 || remaining - value < 0.0 {
        continue;
      }
      if value > remaining * 0.95 {
        StoppedStaysStopped(cash, open, attempts, i + 1, limits);
        return;
      }
      if a.symbol in nowOpen || !a.accepted {
        continue;
      }
      nowOpen := nowOpen + {a.symbol};
      remaining := remaining - value;
      bought := bought + [Purchase(a.symbol, shares, price)];
    }
    assert attempts[..|attempts|] == attempts;
  }

  // ---- What is bought -------------------------------------------------------------------------

  /** `n` shares are the most whole shares the position budget pays for at a quote of at least the minimum. */
  predicate Orders(a: Attempt, n: int, limits: Limits) {
    && a.quote.Some? && limits.minPrice <= a.quote.value && 1 <= n
    && n as real * a.quote.value <= limits.budget < (n + 1) as real * a.quote.value
  }

  /** The order fits well into the cash left, its symbol is not open, and the broker accepts it. */
  predicate Buys(a: Attempt, n: int, cash: real, open: set<string>, limits: Limits) {
    Orders(a, n, limits) && n as real * a.quote.value <= cash * 0.95 && a.symbol !in open && a.accepted
  }

  /** The order would be covered by the cash left, but by too little of it. */
  predicate Stops(a: Attempt, n: int, cash: real, limits: Limits) {
    Orders(a, n, limits) && cash * 0.95 < n as real * a.quote.value <= cash
  }

  lemma MoreSharesCostMore(price: Price, m: int, n: int)
    ensures m <= n ==> OrderValue(price, m) <= OrderValue(price, n)
  {
    if m <= n {
      assert (n - m) as real * price >= 0.0;
      assert OrderValue(price, n) == OrderValue(price, m) + (n - m) as real * price;
    }
  }

  lemma SharesAreOrdered(a: Attempt, n: int, limits: Limits)
    requires a.quote.Some?
    ensures Orders(a, n, limits) <==>
            limits.minPrice <= a.quote.value && n >= 1 && n == Shares(limits.budget, a.quote.value)
  {
    var price, m := a.quote.value, Shares(limits.budget, a.quote.value);
    WholeSharesFillTheBudget(limits.budget, price);
    MoreSharesCostMore(price, n + 1, m);
    MoreSharesCostMore(price, m + 1, n);
  }

  /**
   What one attempt does, told without the loop: reached before the stop, it is bought if and only if
   it is accepted, quoted high enough, not open, and pays for at least one share within the budget and
   95 percent of the cash left; it ends the buying if and only if it needs more than that share of it.
   */
  lemma AttemptIsBoughtExactlyWhen(c: Cycle, a: Attempt, limits: Limits, n: int)
    requires !c.stopped && |c.bought| < limits.slots
    requires a.quote.Some? ==> n == Shares(limits.budget, a.quote.value)
    ensures Buys(a, n, c.cash, c.open, limits) ==>
              Try(c, a, limits) == Cycle(c.cash - n as real * a.quote.value,
                                         c.bought + [Purchase(a.symbol, n, a.quote.value)], c.open + {a.symbol}, false)
    ensures !Buys(a, n, c.cash, c.open, limits) ==>
              Try(c, a, limits) == c.(stopped := Stops(a, n, c.cash, limits))
    ensures forall m :: m != n ==> !Orders(a, m, limits)
  {
    forall m | m != n ensures !Orders(a, m, limits) {
      if a.quote.Some? {
        SharesAreOrdered(a, m, limits);
      }
    }
    if a.quote.Some? {
      SharesAreOrdered(a, n, limits);
      MoreSharesCostMore(a.quote.value, 1, n);
    }
  }

  /** With the slots full or after a stop nothing more is bought. */
  lemma NothingIsBoughtLater(c: Cycle, a: Attempt, limits: Limits)
    requires c.stopped || |c.bought| >= limits.slots
    ensures Try(c, a, limits) == c.(stopped := true)
  {
  }

  /** The same over a whole run: attempt `k` acts on what the attempts before it left. */
  lemma RunBuysExactlyWhen(cash: real, open: set<string>, attempts: seq<Attempt>, limits: Limits, k: nat, n: int)
    requires k < |attempts|
    requires attempts[k].quote.Some? ==> n == Shares(limits.budget, attempts[k].quote.value)
    ensures TryAll(cash, open, [], limits) == Cycle(cash, [], open, false)
    ensures var c, after, a := TryAll(cash, open, attempts[..k], limits), TryAll(cash, open, attempts[..k + 1], limits),
                               attempts[k];
            if c.stopped || |c.bought| >= limits.slots then after == c.(stopped := true)
            else if Buys(a, n, c.cash, c.open, limits) then
              after == Cycle(c.cash - n as real * a.quote.value, c.bought + [Purchase(a.symbol, n, a.quote.value)],
                             c.open + {a.symbol}, false)
            else after == c.(stopped := Stops(a, n, c.cash, limits))
  {
    var c := TryAll(cash, open, attempts[..k], limits);
    assert attempts[..k + 1][..k] == attempts[..k];
    assert TryAll(cash, open, attempts[..k + 1], limits) == Try(c, attempts[k], limits);
    if c.stopped || |c.bought| >= limits.slots {
      NothingIsBoughtLater(c, attempts[k], limits);
    } else {
      AttemptIsBoughtExactlyWhen(c, attempts[k], limits, n);
    }
  }

  /** The purchases are accepted orders: of increasing attempts, with their symbols and quotes. */
  ghost predicate AreAccepted(bought: seq<Purchase>, attempts: seq<Attempt>, from: seq<nat>) {
    && |from| == |bought|
    && (forall j :: 0 <= j < |from| ==>
          && from[j] < |attempts| && attempts[from[j]].accepted
          && attempts[from[j]].symbol == bought[j].symbol && attempts[from[j]].quote == Some(bought[j].price))
    && forall i, j :: 0 <= i < j < |from| ==> from[i] < from[j]
  }

  lemma {:induction false} PurchasesAreAcceptedOrders(cash: real, open: set<string>, attempts: seq<Attempt>,
                                                      limits: Limits)
    returns (from: seq<nat>)
    ensures AreAccepted(TryAll(cash, open, attempts, limits).bought, attempts, from)
  {
    from := [];
    if attempts != [] {
      var n := |attempts| - 1;
      from := PurchasesAreAcceptedOrders(cash, open, attempts[..n], limits);
      var c := TryAll(cash, open, attempts[..n], limits);
      assert forall j :: 0 <= j < |from| ==> attempts[from[j]] == attempts[..n][from[j]];
      if TryAll(cash, open, attempts, limits).bought != c.bought {
        from := from + [n];
      }
    }
  }

  // ---- One cycle ------------------------------------------------------------------------------

  /** The account as one cycle finds it. */
  datatype AccountView = AccountView(cash: real, equity: real, positions: seq<ProviderPosition>,
                                     orders: seq<BuyOrder>, localExposure: real, openSymbols: set<string>,
                                     providerOpen: set<string>, buyingBlocked: bool)

  datatype SizingConfig = SizingConfig(maxPositions: int, positionSizePct: real, minPrice: real)

  function Deployable(a: AccountView): real {
    DeployableCash(a.cash, a.equity, a.positions, a.orders, a.localExposure)
  }

  function LimitsOf(a: AccountView, cfg: SizingConfig): Limits {
    Limits(cfg.maxPositions - |a.openSymbols + a.providerOpen|, a.equity * cfg.positionSizePct / 100.0, cfg.minPrice)
  }

  predicate BuyingOpens(a: AccountView, cfg: SizingConfig) {
    LimitsOf(a, cfg).slots > 0 && !a.buyingBlocked && Deployable(a) > 0.0
  }

  /** Everything held, pending and newly ordered. */
  function Committed(a: AccountView, bought: seq<Purchase>): real {
    Exposure(a.positions, a.localExposure) + Reserved(a.orders) + Spent(bought)
  }

  /** The safety of one cycle's purchases, as the cash-only rule states it. */
  ghost predicate SpendsWithinMeans(a: AccountView, cfg: SizingConfig, bought: seq<Purchase>, remaining: real) {
    && (bought != [] ==> Spent(bought) < Deployable(a) && Spent(bought) < a.cash && remaining > 0.0)
    && remaining == Deployable(a) - Spent(bought)
    && (Committed(a, bought) <= a.equity <==> Committed(a, []) <= a.equity)
    && (bought != [] ==> LongExposure(a.positions) + Reserved(a.orders) + Spent(bought) <= a.equity)
    && (bought != [] ==> a.localExposure + Reserved(a.orders) + Spent(bought) <= a.equity)
    && (forall p :: p in bought ==> WithinBudget(p, LimitsOf(a, cfg)) && p.symbol !in a.openSymbols)
    && (forall i, j :: 0 <= i < j < |bought| ==> bought[i].symbol != bought[j].symbol)
    && |a.openSymbols + a.providerOpen + SymbolsOf(bought)|
       <= Max(cfg.maxPositions, |a.openSymbols + a.providerOpen|)
  }

  lemma NoPurchaseIsWithinMeans(a: AccountView, cfg: SizingConfig)
    ensures SpendsWithinMeans(a, cfg, [], Deployable(a))
  {
    assert a.openSymbols + a.providerOpen + SymbolsOf([]) == a.openSymbols + a.providerOpen;
  }

  /** Spending less than the deployable cash leaves everything committed within equity. */
  lemma EquityBoundIsKept(a: AccountView, bought: seq<Purchase>)
    requires 0.0 < Deployable(a) && Spent(bought) < Deployable(a)
    ensures Committed(a, bought) <= a.equity && Committed(a, []) <= a.equity
  {
  }

  lemma {:induction false} SymbolCount(bought: seq<Purchase>)
    ensures |SymbolsOf(bought)| <= |bought|
  {
    if bought != [] {
      var n := |bought| - 1;
      SymbolCount(bought[..n]);
      assert bought == bought[..n] + [bought[n]];
      assert SymbolsOf(bought) == SymbolsOf(bought[..n]) + {bought[n].symbol};
    }
  }

  lemma UnionSize<T>(a: set<T>, b: set<T>)
    ensures |a + b| <= |a| + |b|
  {
    assert |a + b| == |a| + |b| - |a * b|;
  }

  lemma BoughtSymbolsFitSlots(bought: seq<Purchase>, held: set<string>, slots: int)
    requires |bought| <= slots
    ensures |held + SymbolsOf(bought)| <= |held| + slots
  {
    SymbolCount(bought);
    UnionSize(held, SymbolsOf(bought));
  }

  lemma SoundCycleIsWithinMeans(a: AccountView, cfg: SizingConfig, c: Cycle)
    requires BuyingOpens(a, cfg) && Sound(c, Deployable(a), a.openSymbols, LimitsOf(a, cfg))
    ensures SpendsWithinMeans(a, cfg, c.bought, c.cash)
  {
    BoughtSymbolsFitSlots(c.bought, a.openSymbols + a.providerOpen, LimitsOf(a, cfg).slots);
    EquityBoundIsKept(a, c.bought);
  }

  /** The cash-only guard: what the cycle may spend without margin. */
  method CashOnlyGuard(a: AccountView) returns (deployable: real)
    ensures deployable == Deployable(a)
  {
    var reserved := PendingBuyReservations(a.orders);
    var exposure := MaxReal(LongExposure(a.positions), a.localExposure);
    deployable := MinReal(a.cash, a.equity - exposure - reserved);
  }

  lemma OpenBuyingIsWithinMeans(a: AccountView, cfg: SizingConfig, attempts: seq<Attempt>) returns (from: seq<nat>)
    requires BuyingOpens(a, cfg)
    ensures var c := TryAll(Deployable(a), a.openSymbols, attempts, LimitsOf(a, cfg));
            SpendsWithinMeans(a, cfg, c.bought, c.cash) && AreAccepted(c.bought, attempts, from)
  {
    BuyingIsSound(Deployable(a), a.openSymbols, attempts, LimitsOf(a, cfg));
    from := PurchasesAreAcceptedOrders(Deployable(a), a.openSymbols, attempts, LimitsOf(a, cfg));
    SoundCycleIsWithinMeans(a, cfg, TryAll(Deployable(a), a.openSymbols, attempts, LimitsOf(a, cfg)));
  }

  /** The buying of one cycle; `from` tells which attempts the purchases are. */
  method BuyingPhase(a: AccountView, cfg: SizingConfig, attempts: seq<Attempt>)
    returns (bought: seq<Purchase>, remaining: real, ghost from: seq<nat>)
    ensures a.buyingBlocked || Deployable(a) <= 0.0 || |a.openSymbols + a.providerOpen| >= cfg.maxPositions ==>
              bought == [] && remaining == Deployable(a)
    ensures !a.buyingBlocked && Deployable(a) > 0.0 && |a.openSymbols + a.providerOpen| < cfg.maxPositions ==>
              var c := TryAll(Deployable(a), a.openSymbols, attempts, LimitsOf(a, cfg));
              bought == c.bought && remaining == c.cash
    ensures SpendsWithinMeans(a, cfg, bought, remaining)
    ensures AreAccepted(bought, attempts, from)
  {
    remaining := CashOnlyGuard(a);
    bought, from := [], [];
    if cfg.maxPositions - |a.openSymbols + a.providerOpen| > 0 && !a.buyingBlocked && remaining > 0.0 {
      from := OpenBuyingIsWithinMeans(a, cfg, attempts);
      var nowOpen;
      remaining, bought, nowOpen := BuyCandidates(remaining, a.openSymbols, attempts, LimitsOf(a, cfg));
    } else {
      NoPurchaseIsWithinMeans(a, cfg);
    }
  }
}
