/**
 Wash-sale windows: rows inserted at most once per loss sale when the fills of a paper or real tax
 universe are reconciled, and the buy filter that reads them.  Dates are day numbers.
 */
module WashSale {
  import opened Common
  import opened Compliance
  import opened LotBook

  const MILLIS_PER_SECOND := 1000
  const SECONDS_PER_DAY := 86400
  const LOSS_EPSILON := 0.000001

  datatype WindowRow = WindowRow(symbol: string, sellDate: int, sellSecond: int, sellPrice: real,
                                 lossAmount: real, windowEnd: int, active: bool, paper: bool,
                                 accountRef: string)

  datatype TaxConfig = TaxConfig(country: TaxCountry, safetyBufferDays: int)

  datatype Summary = Summary(fillsScanned: nat, sellFills: nat, lossSells: nat, inserted: nat,
                             existing: nat, unmatched: nat)

  /** A fill's UTC second; text that does not parse is taken to have happened now. */
  function SellSecond(f: Fill, now: int): int {
    (if f.time.Some? then f.time.value else now) / MILLIS_PER_SECOND
  }

  function SellDate(f: Fill, now: int): int {
    SellSecond(f, now) / SECONDS_PER_DAY
  }

  predicate SameSale(r: WindowRow, f: Fill, now: int) {
    && r.paper == f.paper && r.symbol == f.symbol && r.sellSecond == SellSecond(f, now)
    && Abs(r.sellPrice - f.price) < LOSS_EPSILON
  }

  predicate WindowExists(rows: seq<WindowRow>, f: Fill, now: int) {
    exists i :: 0 <= i < |rows| && SameSale(rows[i], f, now)
  }

  predicate IsLossSale(o: Outcome) {
    o.loss > LOSS_EPSILON
  }

  function WindowFor(o: Outcome, cfg: TaxConfig, now: int): WindowRow {
    var f := o.fill;
    WindowRow(f.symbol, SellDate(f, now), SellSecond(f, now), f.price, Abs(o.loss),
              SellDate(f, now) + ForwardBlockDays(cfg.country, Some(cfg.safetyBufferDays)),
              true, f.paper, f.accountRef)
  }

  predicate Inserts(rows: seq<WindowRow>, o: Outcome, cfg: TaxConfig, now: int) {
    && ForwardBlockDays(cfg.country, Some(cfg.safetyBufferDays)) > 0
    && !WindowExists(rows, o.fill, now)
  }

  function AfterOutcome(rows: seq<WindowRow>, o: Outcome, cfg: TaxConfig, now: int): seq<WindowRow> {
    if IsLossSale(o) && Inserts(rows, o, cfg, now) then rows + [WindowFor(o, cfg, now)] else rows
  }

  /** The table after the given sell outcomes, in order. */
  function AfterOutcomes(rows: seq<WindowRow>, outcomes: seq<Outcome>, cfg: TaxConfig, now: int): seq<WindowRow> {
    if outcomes == [] then rows
    else
      AfterOutcome(AfterOutcomes(rows, outcomes[..|outcomes| - 1], cfg, now),
                   outcomes[|outcomes| - 1], cfg, now)
  }

  function Reconciled(rows: seq<WindowRow>, fills: seq<Fill>, cfg: TaxConfig, now: int): seq<WindowRow> {
    if ProfileOf(cfg.country).blockingEnabled then AfterOutcomes(rows, Run(fills).outcomes, cfg, now) else rows
  }

  function LossSales(outcomes: seq<Outcome>): nat {
    if outcomes == [] then 0
    else LossSales(outcomes[..|outcomes| - 1]) + if IsLossSale(outcomes[|outcomes| - 1]) then 1 else 0
  }

  predicate InUniverse(fills: seq<Fill>, paper: bool) {
    forall f :: f in fills ==> f.paper == paper
  }

  /** Every path that writes a row writes it active and with a window of at least 30 days. */
  ghost predicate CoversFloor(rows: seq<WindowRow>) {
    forall r :: r in rows ==>
      r.active && r.sellDate == r.sellSecond / SECONDS_PER_DAY && r.windowEnd >= r.sellDate + 30
  }

  predicate Blocks(r: WindowRow, paper: bool, symbol: string, today: int) {
    r.symbol == symbol && r.active && r.windowEnd >= today && r.paper == paper
  }

  /** The buy filter's test for one account's universe. */
  predicate HasWashSaleWindow(rows: seq<WindowRow>, country: TaxCountry, paper: bool, symbol: string, today: int) {
    && ProfileOf(country).blockingEnabled
    && exists i :: 0 <= i < |rows| && Blocks(rows[i], paper, symbol, today)
  }

  // ---- What one reconciliation does to the table ----------------------------------------------

  lemma {:induction false} AfterOutcomesExtends(rows: seq<WindowRow>, outcomes: seq<Outcome>, cfg: TaxConfig, now: int)
    ensures rows <= AfterOutcomes(rows, outcomes, cfg, now)
  {
    if outcomes != [] {
      AfterOutcomesExtends(rows, outcomes[..|outcomes| - 1], cfg, now);
    }
  }

  lemma {:induction false} FloorIsKept(rows: seq<WindowRow>, outcomes: seq<Outcome>, cfg: TaxConfig, now: int)
    requires CoversFloor(rows)
    ensures CoversFloor(AfterOutcomes(rows, outcomes, cfg, now))
  {
    if outcomes != [] {
      FloorIsKept(rows, outcomes[..|outcomes| - 1], cfg, now);
    }
  }

  /** Each loss sale has its row afterwards, whichever run or account put it there. */
  lemma {:induction false} LossSaleIsRecorded(rows: seq<WindowRow>, outcomes: seq<Outcome>, k: nat, cfg: TaxConfig,
                                              now: int)
    requires k < |outcomes| && IsLossSale(outcomes[k])
    requires ProfileOf(cfg.country).blockingEnabled
    ensures WindowExists(AfterOutcomes(rows, outcomes, cfg, now), outcomes[k].fill, now)
  {
    var n := |outcomes| - 1;
    var before := AfterOutcomes(rows, outcomes[..n], cfg, now);
    var after := AfterOutcomes(rows, outcomes, cfg, now);
    if k == n {
      if Inserts(before, outcomes[k], cfg, now) {
        assert SameSale(after[|before|], outcomes[k].fill, now);
      }
    } else {
      LossSaleIsRecorded(rows, outcomes[..n], k, cfg, now);
      var i :| 0 <= i < |before| && SameSale(before[i], outcomes[k].fill, now);
      assert after[i] == before[i];
    }
  }

  lemma {:induction false} SellFillsKeepUniverse(fills: seq<Fill>, paper: bool)
    requires InUniverse(fills, paper)
    ensures forall o :: o in Run(fills).outcomes ==> o.fill in fills
  {
    if fills != [] {
      SellFillsKeepUniverse(fills[..|fills| - 1], paper);
    }
  }

  // ---- Every table the program can have written -----------------------------------------------

  /**
   What changes the table: replaying a universe's fills, closing an auto position at a loss, selling
   or closing by hand with an estimated loss, and purging the rows of a stale account.
   */
  datatype Write =
    | FromFills(fills: seq<Fill>, cfg: TaxConfig, now: int)
    | FromClose(symbol: string, sellPrice: real, entryPrice: real, second: int, paper: bool,
                accountRef: string, cfg: TaxConfig)
    | ByHand(symbol: string, sellPrice: real, loss: real, second: int, paper: bool,
             accountRef: string, cfg: TaxConfig)
    | Purge(accountRef: string, paper: bool)

  function DirectRow(symbol: string, sellPrice: real, loss: real, second: int, paper: bool,
                     accountRef: string, cfg: TaxConfig): WindowRow {
    var date := second / SECONDS_PER_DAY;
    WindowRow(symbol, date, second, sellPrice, Abs(loss),
              date + ForwardBlockDays(cfg.country, Some(cfg.safetyBufferDays)), true, paper, accountRef)
  }

  predicate IsOwnedBy(r: WindowRow, accountRef: string, paper: bool) {
    r.accountRef == accountRef && r.paper == paper
  }

  function Purged(rows: seq<WindowRow>, accountRef: string, paper: bool): seq<WindowRow> {
    if rows == [] then []
    else
      var last := rows[|rows| - 1];
      Purged(rows[..|rows| - 1], accountRef, paper) + if IsOwnedBy(last, accountRef, paper) then [] else [last]
  }

  function AfterWrite(rows: seq<WindowRow>, w: Write): seq<WindowRow> {
    match w
    case FromFills(fills, cfg, now) => Reconciled(rows, fills, cfg, now)
    case FromClose(symbol, sellPrice, entryPrice, second, paper, accountRef, cfg) =>
      if sellPrice < entryPrice && ProfileOf(cfg.country).blockingEnabled
      then rows + [DirectRow(symbol, sellPrice, sellPrice - entryPrice, second, paper, accountRef, cfg)] else rows
    case ByHand(symbol, sellPrice, loss, second, paper, accountRef, cfg) =>
      if loss > 0.0 && ProfileOf(cfg.country).blockingEnabled
      then rows + [DirectRow(symbol, sellPrice, loss, second, paper, accountRef, cfg)] else rows
    case Purge(accountRef, paper) => Purged(rows, accountRef, paper)
  }

  function Written(writes: seq<Write>): seq<WindowRow> {
    if writes == [] then [] else AfterWrite(Written(writes[..|writes| - 1]), writes[|writes| - 1])
  }

  lemma {:induction false} PurgedRows(rows: seq<WindowRow>, accountRef: string, paper: bool, r: WindowRow)
    ensures r in Purged(rows, accountRef, paper) <==> r in rows && !IsOwnedBy(r, accountRef, paper)
  {
    if rows != [] {
      PurgedRows(rows[..|rows| - 1], accountRef, paper, r);
      assert rows == rows[..|rows| - 1] + [rows[|rows| - 1]];
    }
  }

  lemma WriteKeepsFloor(rows: seq<WindowRow>, w: Write)
    requires CoversFloor(rows)
    ensures CoversFloor(AfterWrite(rows, w))
  {
    match w
    case FromFills(fills, cfg, now) => FloorIsKept(rows, Run(fills).outcomes, cfg, now);
    case Purge(accountRef, paper) =>
      forall r | r in Purged(rows, accountRef, paper) ensures r in rows {
        PurgedRows(rows, accountRef, paper, r);
      }
    case _ =>
  }

  /** Whatever was written and purged, under whatever countries and buffers along the way. */
  lemma {:induction false} EveryTableCoversFloor(writes: seq<Write>)
    ensures CoversFloor(Written(writes))
  {
    if writes != [] {
      EveryTableCoversFloor(writes[..|writes| - 1]);
      WriteKeepsFloor(Written(writes[..|writes| - 1]), writes[|writes| - 1]);
    }
  }

  lemma WriteKeepsRow(rows: seq<WindowRow>, w: Write, r: WindowRow)
    requires r in rows
    ensures r in AfterWrite(rows, w) || (w.Purge? && IsOwnedBy(r, w.accountRef, w.paper))
  {
    match w
    case FromFills(fills, cfg, now) => AfterOutcomesExtends(rows, Run(fills).outcomes, cfg, now);
    case Purge(accountRef, paper) => PurgedRows(rows, accountRef, paper, r);
    case _ =>
  }

  /** From write `n` on, the account that owns the row is purged. */
  predicate PurgedFrom(writes: seq<Write>, n: nat, r: WindowRow) {
    exists j :: n <= j < |writes| && writes[j] == Purge(r.accountRef, r.paper)
  }

  lemma {:induction false} RowsStayUntilPurged(writes: seq<Write>, n: nat, r: WindowRow)
    requires n <= |writes| && r in Written(writes[..n]) && !PurgedFrom(writes, n, r)
    ensures r in Written(writes)
    decreases |writes|
  {
    if n < |writes| {
      var last := |writes| - 1;
      var front := writes[..last];
      assert front[..n] == writes[..n];
      assert forall j :: 0 <= j < last ==> front[j] == writes[j];
      RowsStayUntilPurged(front, n, r);
      WriteKeepsRow(Written(front), writes[last], r);
    } else {
      assert writes[..n] == writes;
    }
  }

  /** Right after write `k` the sale has a row whose account is not purged later. */
  ghost predicate KeepsItsRow(writes: seq<Write>, k: nat, f: Fill, now: int)
    requires k < |writes|
  {
    exists r :: r in Written(writes[..k + 1]) && SameSale(r, f, now) && !PurgedFrom(writes, k + 1, r)
  }

  lemma ReconciledSaleHasRow(writes: seq<Write>, k: nat, o: Outcome) returns (r: WindowRow)
    requires k < |writes| && writes[k].FromFills? && ProfileOf(writes[k].cfg.country).blockingEnabled
    requires o in Run(writes[k].fills).outcomes && IsLossSale(o)
    ensures r in Written(writes[..k + 1]) && SameSale(r, o.fill, writes[k].now)
  {
    var w, before := writes[k], Written(writes[..k]);
    assert writes[..k + 1][..k] == writes[..k];
    var outcomes := Run(w.fills).outcomes;
    var m :| 0 <= m < |outcomes| && outcomes[m] == o;
    LossSaleIsRecorded(before, outcomes, m, w.cfg, w.now);
    var after := AfterOutcomes(before, outcomes, w.cfg, w.now);
    var i :| 0 <= i < |after| && SameSale(after[i], o.fill, w.now);
    r := after[i];
  }

  /** While no account of the universe is purged, every reconciled loss sale keeps its row. */
  lemma WithoutPurgeEverySaleKeepsItsRow(writes: seq<Write>, k: nat, o: Outcome)
    requires k < |writes| && writes[k].FromFills? && ProfileOf(writes[k].cfg.country).blockingEnabled
    requires o in Run(writes[k].fills).outcomes && IsLossSale(o)
    requires forall j :: k < j < |writes| && writes[j].Purge? ==> writes[j].paper != o.fill.paper
    ensures KeepsItsRow(writes, k, o.fill, writes[k].now)
  {
    var r := ReconciledSaleHasRow(writes, k, o);
  }

  /**
   The guarantee the guard exists for.  Once a universe's fills have been reconciled under a blocking
   country, with any buffer and among any other writes, every loss sale that keeps its row blocks its
   symbol for every account of that universe on every day up to at least 30 days after the sale.
   */
  lemma LossSaleBlocksSymbol(writes: seq<Write>, k: nat, paper: bool, o: Outcome, country: TaxCountry, today: int)
    requires k < |writes| && writes[k].FromFills? && InUniverse(writes[k].fills, paper)
    requires ProfileOf(country).blockingEnabled && o in Run(writes[k].fills).outcomes
    requires KeepsItsRow(writes, k, o.fill, writes[k].now)
    requires today <= SellDate(o.fill, writes[k].now) + 30
    ensures HasWashSaleWindow(Written(writes), country, paper, o.fill.symbol, today)
  {
    var now := writes[k].now;
    var r :| r in Written(writes[..k + 1]) && SameSale(r, o.fill, now) && !PurgedFrom(writes, k + 1, r);
    RowsStayUntilPurged(writes, k + 1, r);
    EveryTableCoversFloor(writes);
    SellFillsKeepUniverse(writes[k].fills, paper);
    var all := Written(writes);
    var i :| 0 <= i < |all| && all[i] == r;
    assert Blocks(all[i], paper, o.fill.symbol, today);
  }

  /**
   What a purge does to the guarantee, exactly: a symbol stays blocked if and only if a row of another
   account blocks it, although the purged account's loss sales were sales of the same universe.
   */
  lemma PurgeKeepsBlockExactlyWhen(rows: seq<WindowRow>, accountRef: string, country: TaxCountry, paper: bool,
                                   symbol: string, today: int)
    ensures HasWashSaleWindow(Purged(rows, accountRef, paper), country, paper, symbol, today)
            <==> ProfileOf(country).blockingEnabled
                 && exists r :: r in rows && r.accountRef != accountRef && Blocks(r, paper, symbol, today)
  {
    var left := Purged(rows, accountRef, paper);
    forall r ensures r in left <==> r in rows && !IsOwnedBy(r, accountRef, paper) {
      PurgedRows(rows, accountRef, paper, r);
    }
    if exists r :: r in rows && r.accountRef != accountRef && Blocks(r, paper, symbol, today) {
      var r :| r in rows && r.accountRef != accountRef && Blocks(r, paper, symbol, today);
      assert r in left;
      var i :| 0 <= i < |left| && left[i] == r;
    }
    if exists i :: 0 <= i < |left| && Blocks(left[i], paper, symbol, today) {
      var i :| 0 <= i < |left| && Blocks(left[i], paper, symbol, today);
      assert left[i] in left;
    }
  }

  /** The write recorded a loss of this very symbol in this universe, with a window that covers the day. */
  ghost predicate Causes(w: Write, paper: bool, symbol: string, today: int) {
    match w
    case FromFills(fills, cfg, now) =>
      && ProfileOf(cfg.country).blockingEnabled
      && exists o :: o in Run(fills).outcomes && o.loss > LOSS_EPSILON
                     && o.fill.symbol == symbol && o.fill.paper == paper
                     && today <= SellDate(o.fill, now) + ForwardBlockDays(cfg.country, Some(cfg.safetyBufferDays))
    case FromClose(sold, sellPrice, entryPrice, second, universe, _, cfg) =>
      && ProfileOf(cfg.country).blockingEnabled && sellPrice < entryPrice && sold == symbol && universe == paper
      && today <= second / SECONDS_PER_DAY + ForwardBlockDays(cfg.country, Some(cfg.safetyBufferDays))
    case ByHand(sold, _, loss, second, universe, _, cfg) =>
      && ProfileOf(cfg.country).blockingEnabled && loss > 0.0 && sold == symbol && universe == paper
      && today <= second / SECONDS_PER_DAY + ForwardBlockDays(cfg.country, Some(cfg.safetyBufferDays))
    case Purge(_, _) => false
  }

  /** A row of the replayed table is an earlier one or the window of one of the loss sales. */
  lemma {:induction false} ReplayedRowHasCause(rows: seq<WindowRow>, outcomes: seq<Outcome>, cfg: TaxConfig, now: int,
                                               r: WindowRow)
    requires r in AfterOutcomes(rows, outcomes, cfg, now) && r !in rows
    ensures exists o :: o in outcomes && o.loss > LOSS_EPSILON && r == WindowFor(o, cfg, now)
  {
    var front, last := outcomes[..|outcomes| - 1], outcomes[|outcomes| - 1];
    assert outcomes == front + [last];
    if r in AfterOutcomes(rows, front, cfg, now) {
      ReplayedRowHasCause(rows, front, cfg, now, r);
    }
  }

  /** A row that blocks the symbol was there before or is caused by the write. */
  lemma WrittenRowHasCause(rows: seq<WindowRow>, w: Write, r: WindowRow, paper: bool, symbol: string, today: int)
    requires r in AfterWrite(rows, w) && r !in rows && Blocks(r, paper, symbol, today)
    ensures Causes(w, paper, symbol, today)
  {
    match w
    case FromFills(fills, cfg, now) => ReplayedRowHasCause(rows, Run(fills).outcomes, cfg, now, r);
    case Purge(accountRef, universe) => PurgedRows(rows, accountRef, universe, r);
    case _ =>
  }

  lemma {:induction false} BlockingRowHasCause(writes: seq<Write>, r: WindowRow, paper: bool, symbol: string,
                                               today: int)
    returns (k: nat)
    requires r in Written(writes) && Blocks(r, paper, symbol, today)
    ensures k < |writes| && Causes(writes[k], paper, symbol, today)
  {
    k := |writes| - 1;
    var before := Written(writes[..k]);
    if r in before {
      k := BlockingRowHasCause(writes[..k], r, paper, symbol, today);
    } else {
      WrittenRowHasCause(before, writes[k], r, paper, symbol, today);
    }
  }

  /**
   Nothing is blocked without reason: over any history of writes, a blocked symbol was itself sold at a
   loss in that universe, in a write under a blocking country whose window covers the day.
   */
  lemma BlockedSymbolHasCause(writes: seq<Write>, country: TaxCountry, paper: bool, symbol: string, today: int)
    returns (k: nat)
    requires HasWashSaleWindow(Written(writes), country, paper, symbol, today)
    ensures ProfileOf(country).blockingEnabled && k < |writes| && Causes(writes[k], paper, symbol, today)
  {
    var rows := Written(writes);
    var i :| 0 <= i < |rows| && Blocks(rows[i], paper, symbol, today);
    k := BlockingRowHasCause(writes, rows[i], paper, symbol, today);
  }

  /**
   When a replayed loss sale gets a row of its own: unless one of the same universe, symbol and second
   is there at nearly the same price.  The row carries the sale's loss and covers the configured days.
   */
  lemma LossSaleIsInsertedExactlyWhen(rows: seq<WindowRow>, o: Outcome, cfg: TaxConfig, now: int)
    requires o.loss > 0.000001 && ProfileOf(cfg.country).blockingEnabled
    ensures var second := (if o.fill.time.Some? then o.fill.time.value else now) / 1000;
            var after := AfterOutcome(rows, o, cfg, now);
            if exists i :: 0 <= i < |rows| && rows[i].paper == o.fill.paper && rows[i].symbol == o.fill.symbol
                           && rows[i].sellSecond == second
                           && -0.000001 < rows[i].sellPrice - o.fill.price < 0.000001
            then after == rows
            else
              && |after| == |rows| + 1 && rows <= after
              && after[|rows|].symbol == o.fill.symbol && after[|rows|].paper == o.fill.paper
              && after[|rows|].sellSecond == second && after[|rows|].sellDate == second / 86400
              && after[|rows|].sellPrice == o.fill.price && after[|rows|].lossAmount == o.loss
              && after[|rows|].accountRef == o.fill.accountRef && after[|rows|].active
              && after[|rows|].windowEnd
                 == second / 86400 + ForwardBlockDays(cfg.country, Some(cfg.safetyBufferDays))
  {
    var second := (if o.fill.time.Some? then o.fill.time.value else now) / 1000;
    forall i | 0 <= i < |rows|
      ensures SameSale(rows[i], o.fill, now) <==>
              rows[i].paper == o.fill.paper && rows[i].symbol == o.fill.symbol && rows[i].sellSecond == second
              && -0.000001 < rows[i].sellPrice - o.fill.price < 0.000001
    {
    }
  }

  /** Without a loss, or under a country without the rule, no row is written; a close at a loss carries the loss. */
  lemma DirectLossIsRecordedExactlyWhen(rows: seq<WindowRow>, symbol: string, sellPrice: real, entryPrice: real,
                                        second: int, paper: bool, accountRef: string, cfg: TaxConfig)
    ensures var after := AfterWrite(rows, FromClose(symbol, sellPrice, entryPrice, second, paper, accountRef, cfg));
            if entryPrice > sellPrice && ProfileOf(cfg.country).blockingEnabled then
              && |after| == |rows| + 1 && rows <= after
              && after[|rows|].symbol == symbol && after[|rows|].paper == paper && after[|rows|].active
              && after[|rows|].lossAmount == entryPrice - sellPrice && after[|rows|].sellPrice == sellPrice
              && after[|rows|].sellDate == second / 86400 && after[|rows|].accountRef == accountRef
              && after[|rows|].windowEnd
                 == second / 86400 + ForwardBlockDays(cfg.country, Some(cfg.safetyBufferDays))
            else after == rows
  {
  }

  /** The sale itself has a row that blocks its symbol on this day. */
  predicate SaleBlocks(rows: seq<WindowRow>, f: Fill, now: int, today: int) {
    exists i :: 0 <= i < |rows| && SameSale(rows[i], f, now) && Blocks(rows[i], f.paper, f.symbol, today)
  }

  /**
   For any table at all: recording a loss sale makes it block exactly if no row of it exists and its
   own window covers the day, or a row of it exists and that one blocks.  The duplicate test ignores
   status and window end, so an existing row that does not block hides the sale for good.
   */
  lemma RecordedSaleBlocksExactlyWhen(rows: seq<WindowRow>, o: Outcome, cfg: TaxConfig, now: int, today: int)
    requires IsLossSale(o) && ProfileOf(cfg.country).blockingEnabled
    ensures SaleBlocks(AfterOutcome(rows, o, cfg, now), o.fill, now, today) <==>
            if WindowExists(rows, o.fill, now) then SaleBlocks(rows, o.fill, now, today)
            else today <= SellDate(o.fill, now) + ForwardBlockDays(cfg.country, Some(cfg.safetyBufferDays))
  {
    var after := AfterOutcome(rows, o, cfg, now);
    if !WindowExists(rows, o.fill, now) {
      assert after[|rows|] == WindowFor(o, cfg, now) && SameSale(after[|rows|], o.fill, now);
    }
  }

  // ---- Idempotence ----------------------------------------------------------------------------

  ghost predicate AllLossSalesDated(outcomes: seq<Outcome>) {
    forall o :: o in outcomes && IsLossSale(o) ==> o.fill.time.Some?
  }

  lemma {:induction false} RecordedSalesInsertNothing(rows: seq<WindowRow>, outcomes: seq<Outcome>, cfg: TaxConfig,
                                                      now: int)
    requires forall o :: o in outcomes && IsLossSale(o) ==> WindowExists(rows, o.fill, now)
    ensures AfterOutcomes(rows, outcomes, cfg, now) == rows
  {
    if outcomes != [] {
      RecordedSalesInsertNothing(rows, outcomes[..|outcomes| - 1], cfg, now);
      assert outcomes[|outcomes| - 1] in outcomes;
    }
  }

  /** A rerun at any later moment inserts nothing when the loss sales carry parseable timestamps. */
  lemma RerunInsertsNothing(rows: seq<WindowRow>, fills: seq<Fill>, cfg: TaxConfig, now: int, later: int)
    requires AllLossSalesDated(Run(fills).outcomes)
    ensures Reconciled(Reconciled(rows, fills, cfg, now), fills, cfg, later) == Reconciled(rows, fills, cfg, now)
  {
    if ProfileOf(cfg.country).blockingEnabled {
      var outcomes := Run(fills).outcomes;
      var after := AfterOutcomes(rows, outcomes, cfg, now);
      forall o | o in outcomes && IsLossSale(o) ensures WindowExists(after, o.fill, later) {
        var k :| 0 <= k < |outcomes| && outcomes[k] == o;
        LossSaleIsRecorded(rows, outcomes, k, cfg, now);
        var i :| 0 <= i < |after| && SameSale(after[i], o.fill, now);
        assert SameSale(after[i], o.fill, later);
      }
      RecordedSalesInsertNothing(after, outcomes, cfg, later);
    }
  }

  /**
   Exactly when a rerun is idempotent: at a second that no row carries yet, it adds nothing if and
   only if every loss sale's timestamp parses.
   */
  lemma RerunIsIdempotentIffDated(rows: seq<WindowRow>, fills: seq<Fill>, cfg: TaxConfig, now: int, later: int)
    requires ProfileOf(cfg.country).blockingEnabled
    requires forall r :: r in Reconciled(rows, fills, cfg, now) ==> r.sellSecond != later / MILLIS_PER_SECOND
    ensures Reconciled(Reconciled(rows, fills, cfg, now), fills, cfg, later) == Reconciled(rows, fills, cfg, now)
            <==> AllLossSalesDated(Run(fills).outcomes)
  {
    var outcomes := Run(fills).outcomes;
    var after := Reconciled(rows, fills, cfg, now);
    if AllLossSalesDated(outcomes) {
      RerunInsertsNothing(rows, fills, cfg, now, later);
    } else {
      var o :| o in outcomes && IsLossSale(o) && o.fill.time.None?;
      var k :| 0 <= k < |outcomes| && outcomes[k] == o;
      LossSaleIsRecorded(after, outcomes, k, cfg, later);
      var twice := AfterOutcomes(after, outcomes, cfg, later);
      var i :| 0 <= i < |twice| && SameSale(twice[i], o.fill, later);
      assert twice[i] in twice && twice[i].sellSecond == later / MILLIS_PER_SECOND;
    }
  }

  /** The summary counts every sell, every loss sale and every unmatched share of these outcomes. */
  ghost predicate Tallies(s: Summary, outcomes: seq<Outcome>, rowsAdded: int) {
    && s.sellFills == |outcomes|
    && s.lossSells == LossSales(outcomes)
    && s.unmatched == UnmatchedShares(outcomes)
    && s.inserted == rowsAdded
    && s.inserted + s.existing == s.lossSells
  }

  lemma OutcomeAppended(rows: seq<WindowRow>, outcomes: seq<Outcome>, o: Outcome, cfg: TaxConfig, now: int)
    ensures AfterOutcomes(rows, outcomes + [o], cfg, now)
         == AfterOutcome(AfterOutcomes(rows, outcomes, cfg, now), o, cfg, now)
    ensures LossSales(outcomes + [o]) == LossSales(outcomes) + if IsLossSale(o) then 1 else 0
    ensures UnmatchedShares(outcomes + [o]) == UnmatchedShares(outcomes) + o.unmatched
  {
    assert (outcomes + [o])[..|outcomes|] == outcomes;
  }

  // ---- The program ----------------------------------------------------------------------------

  class WashSaleTracker {
    var rows: seq<WindowRow>

    constructor ()
      ensures rows == []
    {
      rows := [];
    }

    /** Inserts the window of a loss sale unless one exists for the same sale. */
    method InsertReconciled(o: Outcome, cfg: TaxConfig, now: int) returns (inserted: bool)
      modifies this
      ensures inserted == Inserts(old(rows), o, cfg, now)
      ensures rows == if inserted then old(rows) + [WindowFor(o, cfg, now)] else old(rows)
    {
      var forwardDays := ForwardBlockDays(cfg.country, Some(cfg.safetyBufferDays));
      if forwardDays <= 0 {
        return false;
      }
      var second := SellSecond(o.fill, now);
      var date := second / SECONDS_PER_DAY;
      if WindowExists(rows, o.fill, now) {
        return false;
      }
      rows := rows + [WindowRow(o.fill.symbol, date, second, o.fill.price, Abs(o.loss), date + forwardDays,
                                true, o.fill.paper, o.fill.accountRef)];
      return true;
    }

    /** Records a loss noticed while closing a position; this path does not look for duplicates. */
    method RecordWashSale(symbol: string, sellPrice: real, entryPrice: real, second: int, paper: bool,
                          accountRef: string, cfg: TaxConfig)
      modifies this
      ensures rows == AfterWrite(old(rows), FromClose(symbol, sellPrice, entryPrice, second, paper, accountRef, cfg))
    {
      var forwardDays := ForwardBlockDays(cfg.country, Some(cfg.safetyBufferDays));
      if forwardDays <= 0 {
        return;
      }
      var loss := sellPrice - entryPrice;
      if loss < 0.0 {
        var date := second / SECONDS_PER_DAY;
        rows := rows + [WindowRow(symbol, date, second, sellPrice, Abs(loss), date + forwardDays,
                                  true, paper, accountRef)];
      }
    }

    /** Counts one sell outcome and records it if it is a loss. */
    method RecordOutcome(o: Outcome, cfg: TaxConfig, now: int, before: Summary) returns (summary: Summary)
      modifies this
      ensures rows == AfterOutcome(old(rows), o, cfg, now)
      ensures summary == before.(sellFills := before.sellFills + 1,
                                 unmatched := before.unmatched + o.unmatched,
                                 lossSells := before.lossSells + if IsLossSale(o) then 1 else 0,
                                 inserted := before.inserted + |rows| - |old(rows)|,
                                 existing := summary.existing)
      ensures summary.inserted + summary.existing - summary.lossSells
           == before.inserted + before.existing - before.lossSells
    {
      summary := before.(sellFills := before.sellFills + 1, unmatched := before.unmatched + o.unmatched);
      if o.loss > LOSS_EPSILON {
        summary := summary.(lossSells := summary.lossSells + 1);
        var inserted := InsertReconciled(o, cfg, now);
        if inserted {
          summary := summary.(inserted := summary.inserted + 1);
        } else {
          summary := summary.(existing := summary.existing + 1);
        }
      }
    }

    /** One turn of the replay: a fill of the history whose book so far is `b`. */
    method ReplayFill(queues: LotQueues, fill: Fill, cfg: TaxConfig, now: int, before: Summary,
                      ghost b: Book, ghost initial: seq<WindowRow>) returns (summary: Summary)
      requires queues.lots == b.lots
      requires rows == AfterOutcomes(initial, b.outcomes, cfg, now)
      requires Tallies(before, b.outcomes, |rows| - |initial|)
      modifies this, queues
      ensures queues.lots == Step(b, fill).lots
      ensures rows == AfterOutcomes(initial, Step(b, fill).outcomes, cfg, now)
      ensures Tallies(summary, Step(b, fill).outcomes, |rows| - |initial|)
      ensures summary.fillsScanned == before.fillsScanned
    {
      summary := before;
      match fill.side {
        case Buy =>
          queues.PushBack(fill);
        case Sell =>
          var loss, unmatched := queues.MatchSell(fill);
          var o := Outcome(fill, loss, unmatched);
          OutcomeAppended(initial, b.outcomes, o, cfg, now);
          summary := RecordOutcome(o, cfg, now, summary);
        case Other =>
      }
    }

    /** Replays a universe's fills through fresh lot queues and records every loss sale once. */
    method ReconcileTaxUniverse(fills: seq<Fill>, cfg: TaxConfig, now: int) returns (summary: Summary)
      modifies this
      ensures rows == Reconciled(old(rows), fills, cfg, now)
      ensures !ProfileOf(cfg.country).blockingEnabled ==> summary == Summary(0, 0, 0, 0, 0, 0)
      ensures ProfileOf(cfg.country).blockingEnabled ==>
                && summary.fillsScanned == |fills|
                && Tallies(summary, Run(fills).outcomes, |rows| - |old(rows)|)
    {
      if !ProfileOf(cfg.country).blockingEnabled {
        return Summary(0, 0, 0, 0, 0, 0);
      }
      summary := Summary(|fills|, 0, 0, 0, 0, 0);
      var queues := new LotQueues();
      for i := 0 to |fills|
        invariant fresh(queues) && queues.lots == Run(fills[..i]).lots
        invariant rows == AfterOutcomes(old(rows), Run(fills[..i]).outcomes, cfg, now)
        invariant summary.fillsScanned == |fills|
        invariant Tallies(summary, Run(fills[..i]).outcomes, |rows| - |old(rows)|)
      {
        RunAppend(fills[..i], fills[i]);
        assert fills[..i + 1] == fills[..i] + [fills[i]];
        summary := ReplayFill(queues, fills[i], cfg, now, summary, Run(fills[..i]), old(rows));
      }
      assert fills[..|fills|] == fills;
    }
  }
}
