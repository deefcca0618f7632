/**
 The local position rows of the auto trader and their reconciliation against one broker snapshot.
 A row's identifier is its index: rows are only ever appended or updated in place.
 */
module Positions {
  import opened Common
  import opened ProviderOrders

  /** The tolerance of the share comparisons: the spacing of doubles at one. */
  const EPSILON: real := 1.0 / 4503599627370496.0

  datatype Account = Account(provider: string, ref: string, paper: bool)

  datatype Status = Open | Closed | Manual

  datatype Origin = MlaiAuto | MlaiCli | ProviderExternal | Mixed | Unknown

  function Combine(entry: Origin, exit: Origin): Origin {
    if entry == Unknown then exit
    else if exit == Unknown || entry == exit then entry
    else Mixed
  }

  datatype Row = Row(account: Account, symbol: string, entryStamp: int, entryPrice: real, shares: int,
                     costBasis: real, status: Status, orderId: Option<string>, exitOrderId: Option<string>,
                     entryOrigin: Origin, exitOrigin: Option<Origin>, origin: Origin,
                     exitDate: Option<int>, exitPrice: Option<real>, pnl: Option<real>)

  /** A provider-held position. */
  datatype Held = Held(qty: real, avgEntry: real)

  /** The latest provider sell of a symbol since a position's entry. */
  datatype ExitFill = ExitFill(date: int, price: real, orderId: Option<string>, origin: Origin)

  datatype OrderSnapshot = OrderSnapshot(status: OrderStatus, filledQty: real, qty: real)

  /** What one pass for one account sees: positions, provider sells, stored orders and the date. */
  datatype View = View(held: map<string, Held>, exits: map<(string, int), ExitFill>,
                       orders: map<string, OrderSnapshot>, today: int)

  function CostOf(entryPrice: real, shares: int): real {
    entryPrice * shares as real
  }

  function PnlOf(entryPrice: real, exitPrice: real, shares: int): real {
    (exitPrice - entryPrice) * shares as real
  }

  predicate IsTerminal(s: OrderStatus) {
    s != Working
  }

  predicate IsBlank(id: string) {
    forall i :: 0 <= i < |id| ==> id[i] in {' ', '\t', '\n', '\r'}
  }

  predicate OpenIn(r: Row, account: Account) {
    r.account == account && r.status == Open
  }

  predicate HasOpen(rows: seq<Row>, account: Account, symbol: string) {
    exists i :: 0 <= i < |rows| && OpenIn(rows[i], account) && rows[i].symbol == symbol
  }

  /** Long shares only; an absent or short position counts as none. */
  function HeldQty(v: View, symbol: string): real {
    if symbol in v.held && v.held[symbol].qty > 0.0 then v.held[symbol].qty else 0.0
  }

  function ProviderExit(v: View, r: Row): Option<ExitFill> {
    if (r.symbol, r.entryStamp) in v.exits then Some(v.exits[(r.symbol, r.entryStamp)]) else None
  }

  /** The entry buy may not have shown up in the provider's positions yet. */
  predicate EntryPending(orders: map<string, OrderSnapshot>, orderId: Option<string>) {
    if orderId.None? || IsBlank(orderId.value) then false
    else if orderId.value !in orders then true
    else
      var o := orders[orderId.value];
      if IsTerminal(o.status) && (o.qty <= 0.0 || o.filledQty < EPSILON) then false
      else o.status != Filled || (o.qty > 0.0 && o.filledQty + EPSILON < o.qty)
  }

  predicate Waits(r: Row, v: View) {
    HeldQty(v, r.symbol) < 1.0 && ProviderExit(v, r).None? && EntryPending(v.orders, r.orderId)
  }

  predicate Closes(r: Row, v: View) {
    HeldQty(v, r.symbol) < 1.0 && !Waits(r, v)
  }

  predicate Shrinks(r: Row, v: View) {
    1.0 <= HeldQty(v, r.symbol) && HeldQty(v, r.symbol) + EPSILON < r.shares as real
  }

  predicate Grows(r: Row, v: View) {
    1.0 <= HeldQty(v, r.symbol) && HeldQty(v, r.symbol) - EPSILON > r.shares as real
  }

  function ExitOrigin(exit: Option<ExitFill>): Origin {
    if exit.Some? then exit.value.origin else ProviderExternal
  }

  function ClosedRow(r: Row, v: View): Row {
    var exit := ProviderExit(v, r);
    var price := if exit.Some? && exit.value.price > 0.0 then Some(exit.value.price) else None;
    var exitOrder := if exit.Some? && exit.value.orderId.Some? && !IsBlank(exit.value.orderId.value)
                     then exit.value.orderId else None;
    r.(status := Closed,
       exitDate := Some(if exit.Some? then exit.value.date else v.today),
       exitPrice := price,
       pnl := if price.Some? then Some(PnlOf(r.entryPrice, price.value, r.shares)) else None,
       exitOrderId := if exitOrder.Some? then exitOrder else r.exitOrderId,
       exitOrigin := Some(ExitOrigin(exit)),
       origin := Combine(r.entryOrigin, ExitOrigin(exit)))
  }

  function Resized(r: Row, shares: int): Row {
    r.(shares := shares, costBasis := CostOf(r.entryPrice, shares))
  }

  /** The closed part of a position the provider holds fewer shares of, if a sell explains it. */
  function SplitRow(r: Row, v: View): Option<Row> {
    var sold := r.shares - HeldQty(v, r.symbol).Floor;
    var exit := ProviderExit(v, r);
    if !Shrinks(r, v) || sold <= 0 || exit.None? then None
    else Some(Resized(r, sold).(status := Closed, exitDate := Some(exit.value.date),
                                exitPrice := Some(exit.value.price),
                                pnl := Some(PnlOf(r.entryPrice, exit.value.price, sold)),
                                exitOrderId := exit.value.orderId, exitOrigin := Some(exit.value.origin),
                                origin := Combine(r.entryOrigin, exit.value.origin)))
  }

  /** What reconciliation makes of one open row. */
  function ReconciledRow(r: Row, v: View): Row {
    if Closes(r, v) then ClosedRow(r, v)
    else if Shrinks(r, v) || Grows(r, v) then Resized(r, HeldQty(v, r.symbol).Floor)
    else r
  }

  function UpdatedRow(r: Row, account: Account, v: View): Row {
    if OpenIn(r, account) then ReconciledRow(r, v) else r
  }

  function Splits(rows: seq<Row>, account: Account, v: View): seq<Row> {
    if rows == [] then []
    else
      var last := rows[|rows| - 1];
      Splits(rows[..|rows| - 1], account, v)
      + if OpenIn(last, account) && SplitRow(last, v).Some? then [SplitRow(last, v).value] else []
  }

  /** The table after reconciliation: every row updated in place, the closed parts appended. */
  function Reconciled(rows: seq<Row>, account: Account, v: View): (r: seq<Row>)
    ensures |rows| <= |r|
  {
    seq(|rows|, i requires 0 <= i < |rows| => UpdatedRow(rows[i], account, v)) + Splits(rows, account, v)
  }

  /** Origins combine like this: an unknown one yields, equal ones stay, and different ones are mixed. */
  lemma CombinedOrigin(a: Origin, b: Origin)
    ensures Combine(a, b) == Combine(b, a)
    ensures Combine(a, Unknown) == a && Combine(a, a) == a
    ensures a != b && a != Unknown && b != Unknown ==> Combine(a, b) == Mixed
  {
  }

  /**
   What closing a row records: the exit fill's date, its price if positive and the profit on all shares,
   its order unless blank; without a fill today's date, no price and no profit, and the order kept.
   */
  lemma ClosedRowRecords(r: Row, v: View)
    requires r.status == Open && Closes(r, v)
    ensures var after := ReconciledRow(r, v);
            && after.status == Closed && after.shares == r.shares && after.entryPrice == r.entryPrice
            && after.costBasis == r.costBasis && after.symbol == r.symbol && after.account == r.account
            && match ProviderExit(v, r)
               case None => after.exitDate == Some(v.today) && after.exitPrice == None && after.pnl == None
                            && after.exitOrderId == r.exitOrderId && after.exitOrigin == Some(ProviderExternal)
               case Some(exit) =>
                 && after.exitDate == Some(exit.date) && after.exitOrigin == Some(exit.origin)
                 && (if exit.price > 0.0
                     then after.exitPrice == Some(exit.price)
                          && after.pnl == Some(PnlOf(r.entryPrice, exit.price, r.shares))
                     else after.exitPrice == None && after.pnl == None)
                 && (if exit.orderId == None || IsBlank(exit.orderId.value) then after.exitOrderId == r.exitOrderId
                     else after.exitOrderId == exit.orderId)
  {
  }

  /** What the closed part of a shrunk row records: the exit fill, on exactly the shares sold. */
  lemma SplitRowRecords(r: Row, v: View)
    requires r.status == Open && SplitRow(r, v).Some?
    ensures var part, exit := SplitRow(r, v).value, ProviderExit(v, r);
            && exit.Some? && part.status == Closed && part.exitDate == Some(exit.value.date)
            && part.exitPrice == Some(exit.value.price) && part.exitOrderId == exit.value.orderId
            && part.shares >= 1 && part.pnl == Some(PnlOf(r.entryPrice, exit.value.price, part.shares))
            && part.entryPrice == r.entryPrice && part.entryStamp == r.entryStamp
            && part.symbol == r.symbol && part.account == r.account
  {
  }

  /** When a row is closed, kept or resized, told from the broker's quantity. */
  lemma RowIsTreatedBy(r: Row, v: View, q: real)
    requires r.status == Open
    requires q == if r.symbol in v.held && v.held[r.symbol].qty > 0.0 then v.held[r.symbol].qty else 0.0
    ensures Closes(r, v) <==> q < 1.0 && ((r.symbol, r.entryStamp) in v.exits || !EntryPending(v.orders, r.orderId))
    ensures 1.0 <= q ==> ReconciledRow(r, v).status == Open
    ensures 1.0 <= q && (q < r.shares as real - EPSILON || q > r.shares as real + EPSILON) ==>
              && ReconciledRow(r, v).shares as real <= q < (ReconciledRow(r, v).shares + 1) as real
              && ReconciledRow(r, v).costBasis == r.entryPrice * ReconciledRow(r, v).shares as real
    ensures 1.0 <= q && r.shares as real - EPSILON <= q <= r.shares as real + EPSILON ==> ReconciledRow(r, v) == r
  {
  }

  // ---- Recovery -------------------------------------------------------------------------------

  predicate IsSeed(r: Row, account: Account, symbol: string) {
    r.account == account && r.symbol == symbol && r.status == Closed && r.entryOrigin in {MlaiAuto, Mixed}
  }

  /** The most recent closed auto row of a symbol: latest entry, then latest identifier. */
  function LatestSeed(rows: seq<Row>, account: Account, symbol: string): Option<Row> {
    if rows == [] then None
    else
      var last := rows[|rows| - 1];
      var earlier := LatestSeed(rows[..|rows| - 1], account, symbol);
      if IsSeed(last, account, symbol) && (earlier.None? || last.entryStamp >= earlier.value.entryStamp)
      then Some(last) else earlier
  }

  predicate Untracked(overrides: map<(Account, string), bool>, account: Account, symbol: string) {
    (account, symbol) in overrides && !overrides[(account, symbol)]
  }

  function RecoveredPrice(h: Held, seed: Row): real {
    if h.avgEntry > 0.0 then h.avgEntry else seed.entryPrice
  }

  predicate Recoverable(rows: seq<Row>, account: Account, overrides: map<(Account, string), bool>,
                        v: View, symbol: string) {
    && symbol in v.held && v.held[symbol].qty > 0.0
    && !HasOpen(rows, account, symbol) && !Untracked(overrides, account, symbol)
    && LatestSeed(rows, account, symbol).Some?
    && v.held[symbol].qty.Floor > 0
    && RecoveredPrice(v.held[symbol], LatestSeed(rows, account, symbol).value) > 0.0
  }

  function RecoveredRow(rows: seq<Row>, account: Account, v: View, symbol: string): Row
    requires symbol in v.held && LatestSeed(rows, account, symbol).Some?
  {
    var seed := LatestSeed(rows, account, symbol).value;
    var price, shares := RecoveredPrice(v.held[symbol], seed), v.held[symbol].qty.Floor;
    Row(account, symbol, seed.entryStamp, price, shares, CostOf(price, shares), Open, seed.orderId, None,
        seed.entryOrigin, None, seed.entryOrigin, None, None, None)
  }

  /** `after` extends `rows` by exactly one row for each recoverable symbol, in some order. */
  ghost predicate IsRecovery(rows: seq<Row>, after: seq<Row>, account: Account,
                             overrides: map<(Account, string), bool>, v: View) {
    && rows <= after
    && (forall i :: |rows| <= i < |after| ==>
          && Recoverable(rows, account, overrides, v, after[i].symbol)
          && after[i] == RecoveredRow(rows, account, v, after[i].symbol))
    && (forall i, j :: |rows| <= i < j < |after| ==> after[i].symbol != after[j].symbol)
    && (forall s :: Recoverable(rows, account, overrides, v, s) ==> HasOpen(after, account, s))
  }

  // ---- Facts about the table functions --------------------------------------------------------

  lemma {:induction false} SplitsAreClosed(rows: seq<Row>, account: Account, v: View)
    ensures forall r :: r in Splits(rows, account, v) ==> r.status == Closed
  {
    if rows != [] {
      SplitsAreClosed(rows[..|rows| - 1], account, v);
    }
  }

  /** Where an open row of the reconciled table comes from. */
  lemma OpenRowsOfReconciled(rows: seq<Row>, account: Account, v: View, i: nat)
    requires i < |Reconciled(rows, account, v)| && Reconciled(rows, account, v)[i].status == Open
    ensures i < |rows| && rows[i].status == Open
    ensures Reconciled(rows, account, v)[i] == UpdatedRow(rows[i], account, v)
    ensures rows[i].account == account ==> !Closes(rows[i], v)
  {
    SplitsAreClosed(rows, account, v);
    var after := Reconciled(rows, account, v);
    forall k | |rows| <= k < |after| ensures after[k].status == Closed {
      assert after[k] in Splits(rows, account, v);
    }
  }

  /** No second open row for an account and symbol, and every open row carries its true cost. */
  ghost predicate Consistent(rows: seq<Row>) {
    && (forall i, j :: 0 <= i < j < |rows| && rows[i].status == Open && rows[j].status == Open ==>
          rows[i].account != rows[j].account || rows[i].symbol != rows[j].symbol)
    && (forall i :: 0 <= i < |rows| && rows[i].status == Open ==>
          rows[i].shares >= 1 && rows[i].costBasis == CostOf(rows[i].entryPrice, rows[i].shares))
  }

  lemma ReconcileKeepsConsistent(rows: seq<Row>, account: Account, v: View)
    requires Consistent(rows)
    ensures Consistent(Reconciled(rows, account, v))
  {
    var after := Reconciled(rows, account, v);
    forall i | 0 <= i < |after| && after[i].status == Open
      ensures i < |rows| && rows[i].status == Open
      ensures after[i].account == rows[i].account && after[i].symbol == rows[i].symbol
      ensures after[i].shares >= 1 && after[i].costBasis == CostOf(after[i].entryPrice, after[i].shares)
    {
      OpenRowsOfReconciled(rows, account, v, i);
    }
  }

  lemma RecoveryKeepsConsistent(rows: seq<Row>, after: seq<Row>, account: Account,
                                overrides: map<(Account, string), bool>, v: View)
    requires Consistent(rows) && IsRecovery(rows, after, account, overrides, v)
    ensures Consistent(after)
  {
    forall i, j | 0 <= i < j < |after| && after[i].status == Open && after[j].status == Open
      ensures after[i].account != after[j].account || after[i].symbol != after[j].symbol
    {
      if i < |rows| <= j {
        assert after[i] == rows[i];
        assert !HasOpen(rows, account, after[j].symbol);
      }
    }
  }

  // ---- The fixpoint of one snapshot -----------------------------------------------------------

  /** The row tells what the broker holds, up to the comparison tolerance below a whole number. */
  predicate Agrees(r: Row, v: View) {
    var q := HeldQty(v, r.symbol);
    1.0 <= q && (r.shares == q.Floor || (r.shares as real - EPSILON <= q < r.shares as real))
  }

  /** After a pass, an open row either agrees with the broker or is waiting, untouched, for its entry. */
  lemma PassReachesBroker(rows: seq<Row>, after: seq<Row>, account: Account,
                          overrides: map<(Account, string), bool>, v: View, i: nat)
    requires IsRecovery(Reconciled(rows, account, v), after, account, overrides, v)
    requires i < |after| && OpenIn(after[i], account)
    ensures Agrees(after[i], v) || (i < |rows| && after[i] == rows[i] && Waits(rows[i], v))
  {
    var reconciled := Reconciled(rows, account, v);
    if i < |reconciled| {
      assert after[i] == reconciled[i];
      OpenRowsOfReconciled(rows, account, v, i);
    }
  }

  /**
   When reconciling an open row of a held symbol ends with exactly the whole shares held, told from
   the row and the snapshot before the pass: unless the quantity lies in the band just below the count.
   */
  lemma ReconciledCountIsExactWhen(r: Row, v: View)
    requires r.status == Open && 1.0 <= HeldQty(v, r.symbol)
    ensures ReconciledRow(r, v).shares == HeldQty(v, r.symbol).Floor <==>
            !(r.shares as real - EPSILON <= HeldQty(v, r.symbol) < r.shares as real)
  {
  }

  /** The band is not empty: a holding a hair below two shares is kept as two. */
  lemma ToleranceKeepsTwoShares(r: Row, v: View)
    requires r.shares == 2 && r.symbol in v.held && v.held[r.symbol].qty == 2.0 - EPSILON
    ensures ReconciledRow(r, v) == r && HeldQty(v, r.symbol).Floor == 1
  {
  }

  /** Every held symbol that can be recovered is open after the pass. */
  lemma PassOpensRecoverable(rows: seq<Row>, after: seq<Row>, account: Account,
                             overrides: map<(Account, string), bool>, v: View, symbol: string)
    requires IsRecovery(Reconciled(rows, account, v), after, account, overrides, v)
    requires symbol in v.held && v.held[symbol].qty >= 1.0 && !Untracked(overrides, account, symbol)
    requires var seed := LatestSeed(Reconciled(rows, account, v), account, symbol);
             seed.Some? && RecoveredPrice(v.held[symbol], seed.value) > 0.0
    ensures HasOpen(after, account, symbol)
  {
    var reconciled := Reconciled(rows, account, v);
    if HasOpen(reconciled, account, symbol) {
      var i :| 0 <= i < |reconciled| && OpenIn(reconciled[i], account) && reconciled[i].symbol == symbol;
      assert OpenIn(after[i], account);
    } else {
      assert Recoverable(reconciled, account, overrides, v, symbol);
    }
  }

  /** A symbol whose override says manual is open after a recovery exactly if it was open before. */
  lemma ManualSymbolIsNotRecovered(rows: seq<Row>, after: seq<Row>, account: Account,
                                   overrides: map<(Account, string), bool>, v: View, symbol: string)
    requires IsRecovery(rows, after, account, overrides, v)
    requires (account, symbol) in overrides && !overrides[(account, symbol)]
    ensures HasOpen(after, account, symbol) <==> HasOpen(rows, account, symbol)
  {
    if HasOpen(rows, account, symbol) {
      var i :| 0 <= i < |rows| && OpenIn(rows[i], account) && rows[i].symbol == symbol;
      assert OpenIn(after[i], account);
    }
  }

  /** A closed auto row, by its fields. */
  predicate IsClosedAutoRow(r: Row, account: Account, symbol: string) {
    && r.account == account && r.symbol == symbol && r.status == Closed
    && (r.entryOrigin == MlaiAuto || r.entryOrigin == Mixed)
  }

  /** A closed auto row of the symbol; no other has a later entry, or the same one and a later place. */
  predicate IsLatestClosedAutoRow(rows: seq<Row>, k: int, account: Account, symbol: string) {
    && 0 <= k < |rows| && IsClosedAutoRow(rows[k], account, symbol)
    && forall i :: 0 <= i < |rows| && IsClosedAutoRow(rows[i], account, symbol) ==>
         rows[i].entryStamp < rows[k].entryStamp || (rows[i].entryStamp == rows[k].entryStamp && i <= k)
  }

  lemma LatestStaysLatest(rows: seq<Row>, k: nat, r: Row, account: Account, symbol: string)
    requires IsLatestClosedAutoRow(rows, k, account, symbol)
    requires IsClosedAutoRow(r, account, symbol) ==> r.entryStamp < rows[k].entryStamp
    ensures IsLatestClosedAutoRow(rows + [r], k, account, symbol)
  {
    assert forall i :: 0 <= i < |rows| ==> (rows + [r])[i] == rows[i];
  }

  /** The seed is the latest closed auto row of the symbol; there is none only if there is no such row. */
  lemma {:induction false} SeedIsLatestClosedAutoRow(rows: seq<Row>, account: Account, symbol: string) returns (k: int)
    ensures LatestSeed(rows, account, symbol).None? ==>
              forall i :: 0 <= i < |rows| ==> !IsClosedAutoRow(rows[i], account, symbol)
    ensures LatestSeed(rows, account, symbol).Some? ==>
              IsLatestClosedAutoRow(rows, k, account, symbol) && LatestSeed(rows, account, symbol).value == rows[k]
  {
    k := -1;
    if rows != [] {
      var n := |rows| - 1;
      var front, last := rows[..n], rows[n];
      k := SeedIsLatestClosedAutoRow(front, account, symbol);
      assert IsSeed(last, account, symbol) <==> IsClosedAutoRow(last, account, symbol);
      var earlier := LatestSeed(front, account, symbol);
      if IsSeed(last, account, symbol) && (earlier.None? || last.entryStamp >= earlier.value.entryStamp) {
        k := n;
      } else if earlier.Some? {
        assert rows == front + [last];
        LatestStaysLatest(front, k, last, account, symbol);
      }
    }
  }

  /**
   A symbol the broker holds at least one share of, with a closed auto row, a usable price and no
   override to manual, is open after the pass.
   */
  lemma HeldAutoSymbolIsOpenAfterPass(rows: seq<Row>, after: seq<Row>, account: Account,
                                      overrides: map<(Account, string), bool>, v: View, symbol: string, i: nat)
    requires IsRecovery(Reconciled(rows, account, v), after, account, overrides, v)
    requires symbol in v.held && v.held[symbol].qty >= 1.0
    requires (account, symbol) in overrides ==> overrides[(account, symbol)]
    requires i < |Reconciled(rows, account, v)| && IsClosedAutoRow(Reconciled(rows, account, v)[i], account, symbol)
    requires v.held[symbol].avgEntry > 0.0
             || forall k :: 0 <= k < |Reconciled(rows, account, v)|
                            && IsClosedAutoRow(Reconciled(rows, account, v)[k], account, symbol) ==>
                  Reconciled(rows, account, v)[k].entryPrice > 0.0
    ensures HasOpen(after, account, symbol)
  {
    var k := SeedIsLatestClosedAutoRow(Reconciled(rows, account, v), account, symbol);
    PassOpensRecoverable(rows, after, account, overrides, v, symbol);
  }

  /** What a recovered row carries: the broker's whole shares and price, the seed's entry, and no exit order. */
  lemma RecoveredRowMatchesBroker(rows: seq<Row>, after: seq<Row>, account: Account,
                                  overrides: map<(Account, string), bool>, v: View, j: nat)
    requires IsRecovery(rows, after, account, overrides, v) && |rows| <= j < |after|
    ensures var r := after[j];
            && r.account == account && r.status == Open && r.exitOrderId == None
            && r.symbol in v.held && !HasOpen(rows, account, r.symbol)
            && 1 <= r.shares && r.shares as real <= v.held[r.symbol].qty < (r.shares + 1) as real
            && r.entryPrice > 0.0 && (v.held[r.symbol].avgEntry > 0.0 ==> r.entryPrice == v.held[r.symbol].avgEntry)
            && exists i :: 0 <= i < |rows| && IsClosedAutoRow(rows[i], account, r.symbol)
                           && r.entryStamp == rows[i].entryStamp && r.orderId == rows[i].orderId
                           && r.entryOrigin == rows[i].entryOrigin
  {
    var k := SeedIsLatestClosedAutoRow(rows, account, after[j].symbol);
  }

  /**
   When a row without provider shares still waits for its entry order: the order is unknown here, or
   it neither ended without a fill nor is filled completely.
   */
  lemma EntryIsPendingExactlyWhen(orders: map<string, OrderSnapshot>, id: string)
    requires !IsBlank(id)
    ensures EntryPending(orders, Some(id)) <==>
            (id in orders ==>
               var o := orders[id];
               && !(o.status != Working && (o.qty <= 0.0 || o.filledQty < EPSILON))
               && !(o.status == Filled && (o.qty <= 0.0 || o.qty <= o.filledQty + EPSILON)))
    ensures !EntryPending(orders, None)
  {
  }

  lemma ProductIsPositive(x: real, y: real)
    requires x > 0.0 && y > 0.0
    ensures x * y > 0.0
  {
  }

  /** A sale above the entry price is a profit, one below it a loss, and per share exactly the difference. */
  lemma ProfitFollowsPrice(entryPrice: real, exitPrice: real, shares: int)
    requires shares > 0
    ensures PnlOf(entryPrice, exitPrice, shares) > 0.0 <==> exitPrice > entryPrice
    ensures PnlOf(entryPrice, exitPrice, shares) < 0.0 <==> exitPrice < entryPrice
    ensures PnlOf(entryPrice, exitPrice, shares + 1) == PnlOf(entryPrice, exitPrice, shares) + exitPrice - entryPrice
  {
    var d, n := exitPrice - entryPrice, shares as real;
    assert d * (shares + 1) as real == d * n + d;
    if d > 0.0 {
      ProductIsPositive(d, n);
    } else if d < 0.0 {
      ProductIsPositive(-d, n);
      assert -d * n == -(d * n);
    }
  }

  /** A symbol whose row the pass closes is not open at the end of the pass. */
  lemma ClosedInPassStaysClosed(rows: seq<Row>, after: seq<Row>, account: Account,
                                overrides: map<(Account, string), bool>, v: View, i: nat)
    requires Consistent(rows) && IsRecovery(Reconciled(rows, account, v), after, account, overrides, v)
    requires i < |rows| && OpenIn(rows[i], account) && Closes(rows[i], v)
    ensures after[i].status == Closed && !HasOpen(after, account, rows[i].symbol)
  {
    var reconciled := Reconciled(rows, account, v);
    assert after[i] == reconciled[i];
    forall k | 0 <= k < |after| && OpenIn(after[k], account) ensures after[k].symbol != rows[i].symbol {
      if k < |reconciled| {
        assert after[k] == reconciled[k];
        OpenRowsOfReconciled(rows, account, v, k);
      }
    }
  }

  /** A shrinking position with an exit fill loses no share: closed part plus open part is the whole. */
  lemma ShrinkConservesShares(r: Row, v: View)
    requires r.status == Open && Shrinks(r, v)
    ensures ReconciledRow(r, v).status == Open && 1 <= ReconciledRow(r, v).shares < r.shares
    ensures SplitRow(r, v).Some? <==> ProviderExit(v, r).Some?
    ensures SplitRow(r, v).Some? ==>
              && SplitRow(r, v).value.status == Closed
              && SplitRow(r, v).value.shares + ReconciledRow(r, v).shares == r.shares
              && SplitRow(r, v).value.costBasis + ReconciledRow(r, v).costBasis == CostOf(r.entryPrice, r.shares)
  {
    var q := HeldQty(v, r.symbol);
    assert q.Floor as real <= q;
    var sold, kept := r.shares - q.Floor, q.Floor;
    assert r.entryPrice * sold as real + r.entryPrice * kept as real == r.entryPrice * r.shares as real;
  }

  /** Without an exit fill the missing shares simply disappear from the table. */
  lemma ShrinkWithoutExitLosesShares(r: Row, v: View)
    requires r.status == Open && Shrinks(r, v) && ProviderExit(v, r).None?
    ensures SplitRow(r, v).None? && ReconciledRow(r, v).shares < r.shares
  {
    ShrinkConservesShares(r, v);
  }

  /** Every open row agrees with the broker or waits for it. */
  ghost predicate Settled(rows: seq<Row>, account: Account, v: View) {
    forall i :: 0 <= i < |rows| && OpenIn(rows[i], account) ==> Agrees(rows[i], v) || Waits(rows[i], v)
  }

  lemma {:induction false} SettledRowsSplitNothing(rows: seq<Row>, account: Account, v: View)
    requires Settled(rows, account, v)
    ensures Splits(rows, account, v) == []
  {
    if rows != [] {
      SettledRowsSplitNothing(rows[..|rows| - 1], account, v);
      var last := rows[|rows| - 1];
      assert !Shrinks(last, v) || !OpenIn(last, account);
    }
  }

  /** A settled row with a true cost is left as it is. */
  lemma SettledRowIsKept(r: Row, v: View)
    requires r.costBasis == CostOf(r.entryPrice, r.shares)
    requires Agrees(r, v) || Waits(r, v)
    ensures ReconciledRow(r, v) == r
  {
  }

  lemma {:induction false} OpenRowsAreNoSeeds(rows: seq<Row>, after: seq<Row>, account: Account, symbol: string)
    requires rows <= after && forall i :: |rows| <= i < |after| ==> after[i].status == Open
    ensures LatestSeed(after, account, symbol) == LatestSeed(rows, account, symbol)
    decreases |after|
  {
    if |rows| < |after| {
      OpenRowsAreNoSeeds(rows, after[..|after| - 1], account, symbol);
    } else {
      assert rows == after;
    }
  }

  lemma NothingLeftToRecover(rows: seq<Row>, after: seq<Row>, account: Account,
                             overrides: map<(Account, string), bool>, v: View)
    requires IsRecovery(rows, after, account, overrides, v)
    ensures forall s :: !Recoverable(after, account, overrides, v, s)
  {
    forall s ensures !Recoverable(after, account, overrides, v, s) {
      if HasOpen(rows, account, s) {
        var i :| 0 <= i < |rows| && OpenIn(rows[i], account) && rows[i].symbol == s;
        assert after[i] == rows[i];
      } else {
        OpenRowsAreNoSeeds(rows, after, account, s);
      }
    }
  }

  lemma SettledTableIsKept(rows: seq<Row>, account: Account, v: View)
    requires Consistent(rows) && Settled(rows, account, v)
    ensures Reconciled(rows, account, v) == rows
  {
    SettledRowsSplitNothing(rows, account, v);
    forall i | 0 <= i < |rows| ensures UpdatedRow(rows[i], account, v) == rows[i] {
      if OpenIn(rows[i], account) {
        SettledRowIsKept(rows[i], v);
      }
    }
  }

  lemma PassSettles(rows: seq<Row>, after: seq<Row>, account: Account,
                    overrides: map<(Account, string), bool>, v: View)
    requires Consistent(rows) && IsRecovery(Reconciled(rows, account, v), after, account, overrides, v)
    ensures Consistent(after) && Settled(after, account, v)
  {
    ReconcileKeepsConsistent(rows, account, v);
    RecoveryKeepsConsistent(Reconciled(rows, account, v), after, account, overrides, v);
    forall i | 0 <= i < |after| && OpenIn(after[i], account) ensures Agrees(after[i], v) || Waits(after[i], v) {
      PassReachesBroker(rows, after, account, overrides, v, i);
    }
  }

  /**
   Reconcile followed by recover is a fixpoint of its snapshot: from any consistent table a second
   pass over the same snapshot changes no row, opens none and closes none.
   */
  lemma SecondPassChangesNothing(rows: seq<Row>, after: seq<Row>, again: seq<Row>, account: Account,
                                 overrides: map<(Account, string), bool>, v: View)
    requires Consistent(rows)
    requires IsRecovery(Reconciled(rows, account, v), after, account, overrides, v)
    requires IsRecovery(Reconciled(after, account, v), again, account, overrides, v)
    ensures Reconciled(after, account, v) == after && again == after
  {
    PassSettles(rows, after, account, overrides, v);
    SettledTableIsKept(after, account, v);
    assert |after| < |again| ==> Recoverable(after, account, overrides, v, again[|after|].symbol);
    NothingLeftToRecover(Reconciled(rows, account, v), after, account, overrides, v);
  }
}
