/** Candidate selection: which predicted symbols one account may buy today. */
module BuyFilter {
  import opened Common
  import opened Compliance
  import opened LotBook
  import opened WashSale

  const MAX_CANDIDATES := 50

  datatype Prediction = Prediction(symbol: string, score: real, quintile: int)

  datatype ClosedExit = ClosedExit(symbol: string, exitDate: int)

  /**
   What the selection reads for one account: the latest predictions, best score first, the symbols
   already held, the wash-sale rows of all accounts, its own closed exits, and the bars.
   */
  datatype Inputs = Inputs(predictions: seq<Prediction>, openSymbols: set<string>, providerOpen: set<string>,
                           windows: seq<WindowRow>, exits: seq<ClosedExit>, closes: map<string, real>,
                           averageVolume: map<string, real>, blocked: set<string>, paper: bool, today: int)

  datatype FilterConfig = FilterConfig(quintileBuy: int, minPrice: real, minAverageVolume: int,
                                 exitCooldownDays: int, country: TaxCountry)

  predicate HasExitCooldown(exits: seq<ClosedExit>, symbol: string, cooldownDays: int, today: int) {
    && cooldownDays > 0
    && exists i :: 0 <= i < |exits| && exits[i].symbol == symbol && exits[i].exitDate >= today - cooldownDays
  }

  predicate Eligible(p: Prediction, x: Inputs, cfg: FilterConfig) {
    && p.quintile <= cfg.quintileBuy
    && p.symbol !in x.blocked
    && p.symbol !in x.openSymbols && p.symbol !in x.providerOpen
    && !HasWashSaleWindow(x.windows, cfg.country, x.paper, p.symbol, x.today)
    && !HasExitCooldown(x.exits, p.symbol, cfg.exitCooldownDays, x.today)
    && p.symbol in x.closes && x.closes[p.symbol] >= cfg.minPrice
    && (if p.symbol in x.averageVolume then x.averageVolume[p.symbol] else 0.0).Floor >= cfg.minAverageVolume
  }

  /** The eligible predictions, in the order of their scores. */
  function EligibleRows(ps: seq<Prediction>, x: Inputs, cfg: FilterConfig): seq<Prediction> {
    if ps == [] then []
    else
      var last := ps[|ps| - 1];
      EligibleRows(ps[..|ps| - 1], x, cfg) + if Eligible(last, x, cfg) then [last] else []
  }

  lemma {:induction false} EligibleRowsAreEligible(ps: seq<Prediction>, p: Prediction, x: Inputs, cfg: FilterConfig)
    ensures p in EligibleRows(ps, x, cfg) <==> p in ps && Eligible(p, x, cfg)
  {
    if ps != [] {
      EligibleRowsAreEligible(ps[..|ps| - 1], p, x, cfg);
      assert ps == ps[..|ps| - 1] + [ps[|ps| - 1]];
    }
  }

  lemma {:induction false} EligibleRowsOfPrefix(ps: seq<Prediction>, n: nat, x: Inputs, cfg: FilterConfig)
    requires n <= |ps|
    ensures EligibleRows(ps[..n], x, cfg) <= EligibleRows(ps, x, cfg)
    decreases |ps|
  {
    if n < |ps| {
      assert ps[..|ps| - 1][..n] == ps[..n];
      EligibleRowsOfPrefix(ps[..|ps| - 1], n, x, cfg);
    } else {
      assert ps[..n] == ps;
    }
  }

  function Candidates(x: Inputs, cfg: FilterConfig): seq<Prediction> {
    var rows := EligibleRows(x.predictions, x, cfg);
    rows[..Min(|rows|, MAX_CANDIDATES)]
  }

  /** The filters one prediction has to pass, in the order they are tried. */
  method PassesFilters(p: Prediction, x: Inputs, cfg: FilterConfig) returns (passes: bool)
    ensures passes == Eligible(p, x, cfg)
  {
    if p.quintile > cfg.quintileBuy || p.symbol in x.blocked {
      return false;
    }
    if p.symbol in x.openSymbols || p.symbol in x.providerOpen {
      return false;
    }
    if HasWashSaleWindow(x.windows, cfg.country, x.paper, p.symbol, x.today) {
      return false;
    }
    if HasExitCooldown(x.exits, p.symbol, cfg.exitCooldownDays, x.today) {
      return false;
    }
    if p.symbol !in x.closes || x.closes[p.symbol] < cfg.minPrice {
      return false;
    }
    var volume := if p.symbol in x.averageVolume then x.averageVolume[p.symbol] else 0.0;
    return volume.Floor >= cfg.minAverageVolume;
  }

  /** Scans the predictions best first and stops at the cap: exactly the best eligible ones. */
  method FindBuyCandidates(x: Inputs, cfg: FilterConfig) returns (candidates: seq<Prediction>)
    ensures candidates == Candidates(x, cfg)
    ensures candidates <= EligibleRows(x.predictions, x, cfg)
    ensures |candidates| == Min(50, |EligibleRows(x.predictions, x, cfg)|)
  {
    candidates := [];
    for i := 0 to |x.predictions|
      invariant |candidates| < MAX_CANDIDATES
      invariant candidates == EligibleRows(x.predictions[..i], x, cfg)
    {
      var p := x.predictions[i];
      assert x.predictions[..i + 1][..i] == x.predictions[..i];
      var passes := PassesFilters(p, x, cfg);
      if !passes {
        continue;
      }
      candidates := candidates + [p];
      if |candidates| >= MAX_CANDIDATES {
        EligibleRowsOfPrefix(x.predictions, i + 1, x, cfg);
        return;
      }
    }
    assert x.predictions[..|x.predictions|] == x.predictions;
  }

  /**
   End to end, over any history of writes to the table: after a universe's fills were reconciled under
   a blocking country, with any buffer, no account of it gets a symbol sold at a loss as a buy
   candidate from the sale to at least 30 days later, while the sale keeps its row.
   */
  lemma LossSaleIsNeverACandidate(writes: seq<Write>, k: nat, o: Outcome, x: Inputs, cfg: FilterConfig)
    requires x.windows == Written(writes) && k < |writes| && writes[k].FromFills?
    requires InUniverse(writes[k].fills, x.paper)
    requires ProfileOf(cfg.country).blockingEnabled && o in Run(writes[k].fills).outcomes
    requires KeepsItsRow(writes, k, o.fill, writes[k].now)
    requires SellDate(o.fill, writes[k].now) <= x.today <= SellDate(o.fill, writes[k].now) + 30
    ensures forall p :: p in Candidates(x, cfg) ==> p.symbol != o.fill.symbol
  {
    LossSaleBlocksSymbol(writes, k, x.paper, o, cfg.country, x.today);
    forall p | p in Candidates(x, cfg) ensures Eligible(p, x, cfg) {
      assert p in EligibleRows(x.predictions, x, cfg);
      EligibleRowsAreEligible(x.predictions, p, x, cfg);
    }
  }

  /** Everything but the wash-sale window speaks for buying the symbol, filter by filter. */
  predicate PassesOtherFilters(p: Prediction, x: Inputs, cfg: FilterConfig) {
    && p.quintile <= cfg.quintileBuy && p.symbol !in x.blocked && p.symbol !in x.openSymbols + x.providerOpen
    && (cfg.exitCooldownDays <= 0
        || forall e :: e in x.exits && e.symbol == p.symbol ==> e.exitDate + cfg.exitCooldownDays < x.today)
    && p.symbol in x.closes && cfg.minPrice <= x.closes[p.symbol]
    && (if p.symbol in x.averageVolume then cfg.minAverageVolume as real <= x.averageVolume[p.symbol]
        else cfg.minAverageVolume <= 0)
  }

  lemma OtherFiltersMatch(p: Prediction, x: Inputs, cfg: FilterConfig)
    ensures Eligible(p, x, cfg) <==>
            PassesOtherFilters(p, x, cfg) && !HasWashSaleWindow(x.windows, cfg.country, x.paper, p.symbol, x.today)
  {
    forall e | e in x.exits && e.symbol == p.symbol && e.exitDate >= x.today - cfg.exitCooldownDays
      ensures cfg.exitCooldownDays > 0 ==> HasExitCooldown(x.exits, p.symbol, cfg.exitCooldownDays, x.today)
    {
      var i :| 0 <= i < |x.exits| && x.exits[i] == e;
    }
    assert forall i :: 0 <= i < |x.exits| ==> x.exits[i] in x.exits;
  }

  /**
   The converse, over any history of writes: a predicted symbol that passes the other filters and was
   itself in no loss that still covers the day is eligible, whatever else was sold at a loss.
   */
  lemma SymbolWithoutLossIsEligible(writes: seq<Write>, p: Prediction, x: Inputs, cfg: FilterConfig)
    requires x.windows == Written(writes) && p in x.predictions && PassesOtherFilters(p, x, cfg)
    requires forall k :: 0 <= k < |writes| ==> !Causes(writes[k], x.paper, p.symbol, x.today)
    ensures p in EligibleRows(x.predictions, x, cfg)
  {
    if HasWashSaleWindow(x.windows, cfg.country, x.paper, p.symbol, x.today) {
      var k := BlockedSymbolHasCause(writes, cfg.country, x.paper, p.symbol, x.today);
    }
    OtherFiltersMatch(p, x, cfg);
    EligibleRowsAreEligible(x.predictions, p, x, cfg);
  }
}
