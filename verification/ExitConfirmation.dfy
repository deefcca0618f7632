/**
 The exit-confirmation machine of one open position.  Its persisted counters, first-breach times and
 peak are shown to be a function of the whole price history.  Times are in seconds.
 */
module ExitConfirmation {
  import opened Common

  datatype State = State(stopCount: int, stopFirst: Option<int>, takeCount: int, takeFirst: Option<int>,
                         peakPct: Option<real>, peakPrice: Option<real>)

  const DEFAULT_STATE := State(0, None, 0, None, None, None)

  datatype StopConfig = StopConfig(enabled: bool, cycles: int, maxMinutes: int, emergencyPct: real)

  datatype TakeConfig = TakeConfig(enabled: bool, cycles: int, minHoldMinutes: int, trailingEnabled: bool,
                                   trailingGivebackPct: real)

  datatype Config = Config(stop: StopConfig, take: TakeConfig)

  type EntryPrice = p: real | 0.0 < p witness 1.0

  /** The fixed thresholds of a position. */
  datatype Levels = Levels(entryTime: Option<int>, entryPrice: EntryPrice, stopLoss: Option<real>,
                           takeProfit: Option<real>)

  /** One priced cycle. */
  datatype Tick = Tick(now: int, price: real)

  datatype Reason = StopEmergency | StopImmediate | StopConfirmed | TakeImmediate | TakeTrail | TakeConfirmed

  datatype Rule = EmergencyStopLoss | StopLoss | StopLossConfirmation | TakeProfit | TakeProfitTrailing
                | TakeProfitConfirmation | TakeProfitMinHold

  datatype Decision = Decision(reason: Option<Reason>, state: State, rule: Option<Rule>,
                               cyclesRemaining: Option<int>, minutesRemaining: Option<int>)

  function PnlPct(price: real, lv: Levels): real {
    (price / lv.entryPrice - 1.0) * 100.0
  }

  /** Whole minutes since an instant, never negative. */
  function ElapsedMinutes(now: int, since: int): int {
    if now <= since then 0 else (now - since) / 60
  }

  predicate Breaches(t: Tick, lv: Levels) {
    lv.stopLoss.Some? && t.price <= lv.stopLoss.value
  }

  predicate TakeSeen(t: Tick, lv: Levels) {
    lv.takeProfit.Some? && t.price >= lv.takeProfit.value
  }

  predicate IsEmergency(t: Tick, lv: Levels, cfg: Config) {
    cfg.stop.emergencyPct > 0.0 && PnlPct(t.price, lv) <= -cfg.stop.emergencyPct
  }

  predicate MinHoldOk(t: Tick, lv: Levels, cfg: Config) {
    if lv.entryTime.Some? then ElapsedMinutes(t.now, lv.entryTime.value) >= cfg.take.minHoldMinutes
    else cfg.take.minHoldMinutes == 0
  }

  function HeldMinutes(t: Tick, lv: Levels): int {
    if lv.entryTime.Some? then ElapsedMinutes(t.now, lv.entryTime.value) else 0
  }

  function FirstOr(first: Option<int>, now: int): Option<int> {
    if first.None? then Some(now) else first
  }

  /** How one cycle changes the persisted state; no configured option has a say in it. */
  function NextState(s: State, t: Tick, lv: Levels): State {
    if Breaches(t, lv) then s.(stopCount := s.stopCount + 1, stopFirst := FirstOr(s.stopFirst, t.now))
    else
      var s := s.(stopCount := 0, stopFirst := None);
      if !TakeSeen(t, lv) then
        s.(takeCount := 0, takeFirst := None, peakPrice := if s.peakPct.None? then None else s.peakPrice)
      else
        var s := s.(takeCount := s.takeCount + 1, takeFirst := FirstOr(s.takeFirst, t.now));
        var pnl := PnlPct(t.price, lv);
        if s.peakPct.None? || pnl > s.peakPct.value then s.(peakPct := Some(pnl), peakPrice := Some(t.price)) else s
  }

  // ---- The program ----------------------------------------------------------------------------

  /** Why a breaching cycle exits, given the state it leaves behind. */
  function StopReason(cfg: Config, s: State, t: Tick, lv: Levels): Option<Reason>
    requires s.stopFirst.Some?
  {
    if IsEmergency(t, lv, cfg) then Some(StopEmergency)
    else if !cfg.stop.enabled || cfg.stop.cycles <= 1 then Some(StopImmediate)
    else if s.stopCount >= cfg.stop.cycles
         || (cfg.stop.maxMinutes > 0 && ElapsedMinutes(t.now, s.stopFirst.value) >= cfg.stop.maxMinutes)
    then Some(StopConfirmed)
    else None
  }

  method EvaluateStop(cfg: Config, before: State, t: Tick, lv: Levels) returns (d: Decision)
    requires Breaches(t, lv)
    ensures d.state == NextState(before, t, lv)
    ensures d.reason == StopReason(cfg, d.state, t, lv)
    ensures d.rule == Some(if IsEmergency(t, lv, cfg) then EmergencyStopLoss
                           else if !cfg.stop.enabled || cfg.stop.cycles <= 1 then StopLoss
                           else StopLossConfirmation)
    ensures d.reason.Some? ==> d.cyclesRemaining == Some(0) && d.minutesRemaining == Some(0)
    ensures d.reason.None? ==>
              && d.cyclesRemaining == Some(cfg.stop.cycles - d.state.stopCount)
              && d.minutesRemaining == if cfg.stop.maxMinutes > 0
                                       then Some(cfg.stop.maxMinutes - ElapsedMinutes(t.now, d.state.stopFirst.value))
                                       else None
  {
    var s := before;
    s := s.(stopCount := s.stopCount + 1);
    if s.stopFirst.None? {
      s := s.(stopFirst := Some(t.now));
    }
    if IsEmergency(t, lv, cfg) {
      return Decision(Some(StopEmergency), s, Some(EmergencyStopLoss), Some(0), Some(0));
    }
    if !cfg.stop.enabled || cfg.stop.cycles <= 1 {
      return Decision(Some(StopImmediate), s, Some(StopLoss), Some(0), Some(0));
    }
    var waited := ElapsedMinutes(t.now, s.stopFirst.value);
    if s.stopCount >= cfg.stop.cycles || (cfg.stop.maxMinutes > 0 && waited >= cfg.stop.maxMinutes) {
      return Decision(Some(StopConfirmed), s, Some(StopLossConfirmation), Some(0), Some(0));
    }
    var minutes := if cfg.stop.maxMinutes > 0 then Some(Max(cfg.stop.maxMinutes - waited, 0)) else None;
    return Decision(None, s, Some(StopLossConfirmation), Some(Max(cfg.stop.cycles - s.stopCount, 0)), minutes);
  }

  /** Why a cycle above the stop exits, given the state it leaves behind. */
  function TakeReason(cfg: Config, s: State, t: Tick, lv: Levels): Option<Reason> {
    if TakeSeen(t, lv) && !cfg.take.enabled then Some(TakeImmediate)
    else if cfg.take.enabled && cfg.take.trailingEnabled && MinHoldOk(t, lv, cfg) && s.peakPct.Some?
         && s.peakPct.value - PnlPct(t.price, lv) >= cfg.take.trailingGivebackPct
    then Some(TakeTrail)
    else if TakeSeen(t, lv) && MinHoldOk(t, lv, cfg) && s.takeCount >= cfg.take.cycles then Some(TakeConfirmed)
    else None
  }

  method EvaluateTake(cfg: Config, before: State, t: Tick, lv: Levels) returns (d: Decision)
    requires !Breaches(t, lv)
    ensures d.state == NextState(before, t, lv)
    ensures d.reason == TakeReason(cfg, d.state, t, lv)
    ensures d.reason.Some? ==> d.cyclesRemaining == Some(0) && d.minutesRemaining == Some(0)
    ensures d.reason.Some? ==> d.rule == Some(match d.reason.value
                                              case TakeImmediate => TakeProfit
                                              case TakeTrail => TakeProfitTrailing
                                              case _ => TakeProfitConfirmation)
    ensures d.reason.None? && !TakeSeen(t, lv) ==> d == Decision(None, d.state, None, None, None)
    ensures d.reason.None? && TakeSeen(t, lv) && MinHoldOk(t, lv, cfg) ==>
              d == Decision(None, d.state, Some(TakeProfitConfirmation),
                            Some(cfg.take.cycles - d.state.takeCount), None)
    ensures d.reason.None? && TakeSeen(t, lv) && !MinHoldOk(t, lv, cfg) ==>
              d == Decision(None, d.state, Some(TakeProfitMinHold), None,
                            Some(Max(0, cfg.take.minHoldMinutes - HeldMinutes(t, lv))))
  {
    var s := before;
    s := s.(stopCount := 0, stopFirst := None);
    var pnl := PnlPct(t.price, lv);
    var holdOk := MinHoldOk(t, lv, cfg);
    var seen := lv.takeProfit.Some? && t.price >= lv.takeProfit.value;
    if seen {
      s := s.(takeCount := s.takeCount + 1);
      if s.takeFirst.None? {
        s := s.(takeFirst := Some(t.now));
      }
      if s.peakPct.None? || pnl > s.peakPct.value {
        s := s.(peakPct := Some(pnl), peakPrice := Some(t.price));
      }
      if !cfg.take.enabled {
        return Decision(Some(TakeImmediate), s, Some(TakeProfit), Some(0), Some(0));
      }
    } else {
      s := s.(takeCount := 0, takeFirst := None);
      if s.peakPct.None? {
        s := s.(peakPrice := None);
      }
    }
    if cfg.take.enabled && cfg.take.trailingEnabled && holdOk && s.peakPct.Some? {
      var giveback := s.peakPct.value - pnl;
      if giveback >= cfg.take.trailingGivebackPct {
        return Decision(Some(TakeTrail), s, Some(TakeProfitTrailing), Some(0), Some(0));
      }
    }
    if seen && holdOk && s.takeCount >= cfg.take.cycles {
      return Decision(Some(TakeConfirmed), s, Some(TakeProfitConfirmation), Some(0), Some(0));
    }
    if !seen {
      return Decision(None, s, None, None, None);
    }
    if holdOk {
      return Decision(None, s, Some(TakeProfitConfirmation), Some(Max(cfg.take.cycles - s.takeCount, 0)), None);
    }
    return Decision(None, s, Some(TakeProfitMinHold), None,
                    Some(Max(cfg.take.minHoldMinutes - HeldMinutes(t, lv), 0)));
  }

  function ReasonAfter(cfg: Config, before: State, t: Tick, lv: Levels): Option<Reason> {
    var s := NextState(before, t, lv);
    if Breaches(t, lv) then StopReason(cfg, s, t, lv) else TakeReason(cfg, s, t, lv)
  }

  function Replay(h: seq<Tick>, lv: Levels): State {
    if h == [] then DEFAULT_STATE else NextState(Replay(h[..|h| - 1], lv), h[|h| - 1], lv)
  }

  lemma ReplayAppend(h: seq<Tick>, t: Tick, lv: Levels)
    ensures Replay(h + [t], lv) == NextState(Replay(h, lv), t, lv)
  {
    assert (h + [t])[..|h|] == h;
  }

  /** An open position with its persisted confirmation state and, as a ghost, all cycles it has seen. */
  class TrackedPosition {
    const levels: Levels
    var confirmation: State
    ghost var history: seq<Tick>

    ghost predicate Valid()
      reads this
    {
      confirmation == Replay(history, levels)
    }

    constructor (levels: Levels)
      ensures Valid() && history == [] && this.levels == levels
    {
      this.levels := levels;
      confirmation := DEFAULT_STATE;
      history := [];
    }

    /** Evaluates one priced cycle and persists the state, whatever the decision. */
    method RunCycle(cfg: Config, t: Tick) returns (d: Decision)
      requires Valid()
      modifies this
      ensures Valid() && history == old(history) + [t]
      ensures d.state == confirmation
      ensures d.reason == ReasonAfter(cfg, Replay(old(history), levels), t, levels)
    {
      if Breaches(t, levels) {
        d := EvaluateStop(cfg, confirmation, t, levels);
      } else {
        d := EvaluateTake(cfg, confirmation, t, levels);
      }
      ReplayAppend(history, t, levels);
      history := history + [t];
      confirmation := d.state;
    }
  }

  // ---- The state as a function of the history -------------------------------------------------

  /** The history with the stop-breach cycles removed. */
  function Calm(h: seq<Tick>, lv: Levels): seq<Tick> {
    if h == [] then []
    else Calm(h[..|h| - 1], lv) + if Breaches(h[|h| - 1], lv) then [] else [h[|h| - 1]]
  }

  function BreachTest(lv: Levels): Tick -> bool {
    (t: Tick) => Breaches(t, lv)
  }

  function TakeTest(lv: Levels): Tick -> bool {
    (t: Tick) => TakeSeen(t, lv)
  }

  /** The last `n` cycles pass the test and the one before them, if any, does not. */
  ghost predicate TrailingRun(h: seq<Tick>, n: int, p: Tick -> bool) {
    && 0 <= n <= |h|
    && (forall i :: |h| - n <= i < |h| ==> p(h[i]))
    && (n < |h| ==> !p(h[|h| - n - 1]))
  }

  /** A counter and a first time that describe the trailing run and its start. */
  ghost predicate TracksRun(h: seq<Tick>, count: int, first: Option<int>, p: Tick -> bool) {
    && TrailingRun(h, count, p)
    && first == if count == 0 then None else Some(h[|h| - count].now)
  }

  /** The peak is attained by a take-profit cycle and bounds all of them; there is none without one. */
  ghost predicate TracksPeak(calm: seq<Tick>, s: State, lv: Levels) {
    && (s.peakPct.None? ==> s.peakPrice.None? && forall i :: 0 <= i < |calm| ==> !TakeSeen(calm[i], lv))
    && (s.peakPct.Some? ==>
          && (exists i :: 0 <= i < |calm| && TakeSeen(calm[i], lv)
                && s.peakPct == Some(PnlPct(calm[i].price, lv)) && s.peakPrice == Some(calm[i].price))
          && (forall i :: 0 <= i < |calm| && TakeSeen(calm[i], lv) ==> PnlPct(calm[i].price, lv) <= s.peakPct.value))
  }

  lemma RunExtends(h: seq<Tick>, count: int, first: Option<int>, t: Tick, p: Tick -> bool)
    requires TracksRun(h, count, first, p)
    ensures p(t) ==> TracksRun(h + [t], count + 1, FirstOr(first, t.now), p)
    ensures !p(t) ==> TracksRun(h + [t], 0, None, p)
  {
  }

  lemma PeakExtends(calm: seq<Tick>, s: State, t: Tick, lv: Levels)
    requires TracksPeak(calm, s, lv) && !Breaches(t, lv)
    ensures TracksPeak(calm + [t], NextState(s, t, lv), lv)
  {
    var calm', s' := calm + [t], NextState(s, t, lv);
    assert forall i :: 0 <= i < |calm| ==> calm'[i] == calm[i];
    assert calm'[|calm|] == t;
    if s'.peakPct != s.peakPct {
      assert TakeSeen(calm'[|calm|], lv);
    } else if s.peakPct.Some? {
      var i :| 0 <= i < |calm| && TakeSeen(calm[i], lv)
               && s.peakPct == Some(PnlPct(calm[i].price, lv)) && s.peakPrice == Some(calm[i].price);
      assert TakeSeen(calm'[i], lv);
    }
  }

  ghost predicate IsSummaryOf(s: State, h: seq<Tick>, calm: seq<Tick>, lv: Levels) {
    && TracksRun(h, s.stopCount, s.stopFirst, BreachTest(lv))
    && TracksRun(calm, s.takeCount, s.takeFirst, TakeTest(lv))
    && TracksPeak(calm, s, lv)
  }

  lemma SummaryExtends(s: State, h: seq<Tick>, calm: seq<Tick>, t: Tick, lv: Levels)
    requires IsSummaryOf(s, h, calm, lv)
    ensures IsSummaryOf(NextState(s, t, lv), h + [t], if Breaches(t, lv) then calm else calm + [t], lv)
  {
    RunExtends(h, s.stopCount, s.stopFirst, t, BreachTest(lv));
    assert BreachTest(lv)(t) == Breaches(t, lv);
    if !Breaches(t, lv) {
      RunExtends(calm, s.takeCount, s.takeFirst, t, TakeTest(lv));
      assert TakeTest(lv)(t) == TakeSeen(t, lv);
      PeakExtends(calm, s, t, lv);
    }
  }

  /**
   After any history the stop counter and time are the trailing run of breaches and its start, the
   take-profit ones are those of the history without its breaches, and the peak is the maximum P&L
   over all take-profit cycles outside breaches.
   */
  lemma {:induction false} StateIsFunctionOfHistory(h: seq<Tick>, lv: Levels)
    ensures IsSummaryOf(Replay(h, lv), h, Calm(h, lv), lv)
  {
    if h != [] {
      var before, t := h[..|h| - 1], h[|h| - 1];
      StateIsFunctionOfHistory(before, lv);
      SummaryExtends(Replay(before, lv), before, Calm(before, lv), t, lv);
      assert before + [t] == h;
      assert Calm(h, lv) == if Breaches(t, lv) then Calm(before, lv) else Calm(before, lv) + [t];
    }
  }

  /** A trailing run has one length. */
  lemma TrailingRunIsUnique(h: seq<Tick>, m: int, n: int, p: Tick -> bool)
    requires TrailingRun(h, m, p) && TrailingRun(h, n, p)
    ensures m == n
  {
  }

  lemma TrackedRunIsTheRun(h: seq<Tick>, count: int, first: Option<int>, run: int, p: Tick -> bool)
    requires TracksRun(h, count, first, p) && TrailingRun(h, run, p) && h != [] && p(h[|h| - 1])
    ensures 1 <= run == count && first == Some(h[|h| - run].now)
  {
    TrailingRunIsUnique(h, run, count, p);
  }

  lemma StopCounterIsRun(all: seq<Tick>, lv: Levels, run: int)
    requires all != [] && BreachTest(lv)(all[|all| - 1]) && TrailingRun(all, run, BreachTest(lv))
    ensures 1 <= run == Replay(all, lv).stopCount
    ensures Replay(all, lv).stopFirst == Some(all[|all| - run].now)
  {
    var s := Replay(all, lv);
    StateIsFunctionOfHistory(all, lv);
    TrackedRunIsTheRun(all, s.stopCount, s.stopFirst, run, BreachTest(lv));
  }

  lemma StopReasonAfter(cfg: Config, h: seq<Tick>, t: Tick, lv: Levels)
    requires Breaches(t, lv)
    ensures Replay(h + [t], lv).stopFirst.Some?
    ensures ReasonAfter(cfg, Replay(h, lv), t, lv) == StopReason(cfg, Replay(h + [t], lv), t, lv)
  {
    ReplayAppend(h, t, lv);
  }

  /**
   When a breaching cycle exits: at an emergency loss, or at once without confirmation, or when the
   unbroken run of breaches is long enough in cycles or in minutes; and not otherwise.
   */
  lemma StopExitsExactlyWhen(cfg: Config, h: seq<Tick>, t: Tick, lv: Levels, run: int)
    requires Breaches(t, lv) && TrailingRun(h + [t], run, BreachTest(lv))
    ensures 1 <= run
    ensures var start := (h + [t])[|h| + 1 - run].now;
            ReasonAfter(cfg, Replay(h, lv), t, lv) ==
            if IsEmergency(t, lv, cfg) then Some(StopEmergency)
            else if !cfg.stop.enabled || cfg.stop.cycles <= 1 then Some(StopImmediate)
            else if run >= cfg.stop.cycles
                 || (cfg.stop.maxMinutes > 0 && ElapsedMinutes(t.now, start) >= cfg.stop.maxMinutes)
            then Some(StopConfirmed)
            else None
  {
    var all := h + [t];
    assert all[|all| - 1] == t && BreachTest(lv)(t);
    StopCounterIsRun(all, lv, run);
    StopReasonAfter(cfg, h, t, lv);
  }

  /** Some take-profit cycle outside the breaches stood at least `giveback` above this cycle. */
  ghost predicate GaveBack(calm: seq<Tick>, t: Tick, giveback: real, lv: Levels) {
    exists i :: 0 <= i < |calm| && TakeSeen(calm[i], lv)
                && PnlPct(calm[i].price, lv) - PnlPct(t.price, lv) >= giveback
  }

  /**
   When a cycle above the stop exits, in terms of the history without its breaches: confirmation
   needs an unbroken run of take-profit cycles, trailing needs an earlier one far enough above.
   */
  lemma TakeExitsExactlyWhen(cfg: Config, h: seq<Tick>, t: Tick, lv: Levels, run: int)
    requires !Breaches(t, lv) && TrailingRun(Calm(h + [t], lv), run, TakeTest(lv))
    ensures ReasonAfter(cfg, Replay(h, lv), t, lv) ==
            if TakeSeen(t, lv) && !cfg.take.enabled then Some(TakeImmediate)
            else if cfg.take.enabled && cfg.take.trailingEnabled && MinHoldOk(t, lv, cfg)
                 && GaveBack(Calm(h + [t], lv), t, cfg.take.trailingGivebackPct, lv)
            then Some(TakeTrail)
            else if TakeSeen(t, lv) && MinHoldOk(t, lv, cfg) && run >= cfg.take.cycles then Some(TakeConfirmed)
            else None
  {
    ReplayAppend(h, t, lv);
    StateIsFunctionOfHistory(h + [t], lv);
    TrailingRunIsUnique(Calm(h + [t], lv), run, Replay(h + [t], lv).takeCount, TakeTest(lv));
  }

  // ---- The decisions in prices alone ----------------------------------------------------------

  lemma PnlInPrices(price: real, lv: Levels)
    ensures PnlPct(price, lv) * lv.entryPrice == (price - lv.entryPrice) * 100.0
  {
    assert price / lv.entryPrice * lv.entryPrice == price;
  }

  lemma ScaledComparison(x: real, y: real, scale: real)
    requires scale > 0.0
    ensures x <= y <==> x * scale <= y * scale
  {
    if x <= y {
      assert (y - x) * scale >= 0.0;
    } else {
      assert (x - y) * scale > 0.0;
    }
  }

  /** A cycle is an emergency exactly if the price has fallen by the configured percentage of the entry price. */
  lemma EmergencyInPrices(t: Tick, lv: Levels, cfg: Config)
    ensures IsEmergency(t, lv, cfg) <==>
            cfg.stop.emergencyPct > 0.0 && t.price * 100.0 <= lv.entryPrice * (100.0 - cfg.stop.emergencyPct)
  {
    PnlInPrices(t.price, lv);
    ScaledComparison(PnlPct(t.price, lv), -cfg.stop.emergencyPct, lv.entryPrice);
  }

  /** A higher price is a higher profit. */
  lemma PnlFollowsPrice(a: real, b: real, lv: Levels)
    ensures PnlPct(a, lv) <= PnlPct(b, lv) <==> a <= b
  {
    PnlInPrices(a, lv);
    PnlInPrices(b, lv);
    ScaledComparison(PnlPct(a, lv), PnlPct(b, lv), lv.entryPrice);
  }

  lemma GivebackInPrices(peak: real, price: real, giveback: real, lv: Levels)
    ensures PnlPct(peak, lv) - PnlPct(price, lv) >= giveback <==> (peak - price) * 100.0 >= giveback * lv.entryPrice
  {
    PnlInPrices(peak, lv);
    PnlInPrices(price, lv);
    ScaledComparison(giveback, PnlPct(peak, lv) - PnlPct(price, lv), lv.entryPrice);
  }

  /** A cycle outside the stop breaches at or above the take-profit level. */
  predicate IsTakeCycle(t: Tick, lv: Levels) {
    && (lv.stopLoss.Some? ==> t.price > lv.stopLoss.value)
    && lv.takeProfit.Some? && t.price >= lv.takeProfit.value
  }

  lemma {:induction false} CalmCycles(h: seq<Tick>, lv: Levels, t: Tick)
    ensures t in Calm(h, lv) <==> t in h && (lv.stopLoss.Some? ==> t.price > lv.stopLoss.value)
  {
    if h != [] {
      CalmCycles(h[..|h| - 1], lv, t);
      assert h == h[..|h| - 1] + [h[|h| - 1]];
    }
  }

  /** The peak price is that of some take-profit cycle of the history, and none of them is higher. */
  ghost predicate IsHighestTakePrice(h: seq<Tick>, peak: real, lv: Levels) {
    && (exists t :: t in h && IsTakeCycle(t, lv) && t.price == peak)
    && forall t :: t in h && IsTakeCycle(t, lv) ==> t.price <= peak
  }

  lemma CalmPeakIsHighest(h: seq<Tick>, calm: seq<Tick>, s: State, lv: Levels)
    requires TracksPeak(calm, s, lv) && calm == Calm(h, lv)
    ensures s.peakPct.Some? ==> s.peakPrice.Some? && s.peakPct.value == PnlPct(s.peakPrice.value, lv)
    ensures s.peakPct.Some? ==> IsHighestTakePrice(h, s.peakPrice.value, lv)
    ensures s.peakPct.None? ==> forall t :: t in h ==> !IsTakeCycle(t, lv)
  {
    forall t | t in h && IsTakeCycle(t, lv)
      ensures s.peakPct.Some? && s.peakPrice.Some? && t.price <= s.peakPrice.value
    {
      CalmCycles(h, lv, t);
      var i :| 0 <= i < |calm| && calm[i] == t;
      assert TakeSeen(calm[i], lv);
      PnlFollowsPrice(t.price, s.peakPrice.value, lv);
    }
    if s.peakPct.Some? {
      var i :| 0 <= i < |calm| && TakeSeen(calm[i], lv)
               && s.peakPct == Some(PnlPct(calm[i].price, lv)) && s.peakPrice == Some(calm[i].price);
      CalmCycles(h, lv, calm[i]);
      assert calm[i] in h && IsTakeCycle(calm[i], lv);
    }
  }

  /** The persisted peak price, after any history: the highest price of all take-profit cycles. */
  lemma PeakPriceIsHighest(h: seq<Tick>, lv: Levels)
    ensures var s := Replay(h, lv);
            && (s.peakPct.None? <==> forall t :: t in h ==> !IsTakeCycle(t, lv))
            && (s.peakPct.Some? ==>
                  s.peakPrice.Some? && IsHighestTakePrice(h, s.peakPrice.value, lv)
                  && s.peakPct.value == PnlPct(s.peakPrice.value, lv))
  {
    StateIsFunctionOfHistory(h, lv);
    CalmPeakIsHighest(h, Calm(h, lv), Replay(h, lv), lv);
  }

  /** Whole minutes between two instants, by their bounds. */
  lemma MinutesAreWhole(now: int, since: int, minutes: int)
    requires since <= now && 0 <= minutes
    ensures ElapsedMinutes(now, since) >= minutes <==> now >= since + 60 * minutes
  {
  }

  /** The position has been held for the configured minutes; without a known entry only if none are asked for. */
  predicate HeldLongEnough(t: Tick, lv: Levels, minutes: int) {
    if lv.entryTime.None? then minutes == 0
    else minutes <= 0 || t.now >= lv.entryTime.value + 60 * minutes
  }

  lemma MinHoldInSeconds(t: Tick, lv: Levels, cfg: Config)
    ensures MinHoldOk(t, lv, cfg) <==> HeldLongEnough(t, lv, cfg.take.minHoldMinutes)
  {
    if lv.entryTime.Some? && lv.entryTime.value <= t.now && cfg.take.minHoldMinutes >= 0 {
      MinutesAreWhole(t.now, lv.entryTime.value, cfg.take.minHoldMinutes);
    }
  }

  lemma RunIsTrailing(h: seq<Tick>, t: Tick, lv: Levels, run: nat)
    requires lv.stopLoss.Some? && t.price <= lv.stopLoss.value && run <= |h|
    requires forall i :: |h| - run <= i < |h| ==> h[i].price <= lv.stopLoss.value
    requires run < |h| ==> h[|h| - run - 1].price > lv.stopLoss.value
    ensures TrailingRun(h + [t], run + 1, BreachTest(lv))
  {
  }

  /**
   A price at or under the stop exits, and with which reason: told from prices, times and the run of
   such cycles alone.
   */
  lemma StopExitsInPrices(cfg: Config, h: seq<Tick>, t: Tick, lv: Levels, run: nat)
    requires lv.stopLoss.Some? && t.price <= lv.stopLoss.value && run <= |h|
    requires forall i :: |h| - run <= i < |h| ==> h[i].price <= lv.stopLoss.value
    requires run < |h| ==> h[|h| - run - 1].price > lv.stopLoss.value
    ensures var start := if run == 0 then t.now else h[|h| - run].now;
            ReasonAfter(cfg, Replay(h, lv), t, lv) ==
            if cfg.stop.emergencyPct > 0.0 && t.price * 100.0 <= lv.entryPrice * (100.0 - cfg.stop.emergencyPct)
            then Some(StopEmergency)
            else if !cfg.stop.enabled || cfg.stop.cycles <= 1 then Some(StopImmediate)
            else if run + 1 >= cfg.stop.cycles
                 || (cfg.stop.maxMinutes > 0 && t.now >= start + 60 * cfg.stop.maxMinutes)
            then Some(StopConfirmed)
            else None
  {
    var all := h + [t];
    RunIsTrailing(h, t, lv, run);
    StopExitsExactlyWhen(cfg, h, t, lv, run + 1);
    EmergencyInPrices(t, lv, cfg);
    var start := all[|h| + 1 - (run + 1)].now;
    assert start == if run == 0 then t.now else h[|h| - run].now;
    if cfg.stop.maxMinutes > 0 && start <= t.now {
      MinutesAreWhole(t.now, start, cfg.stop.maxMinutes);
    }
  }

  /** Some take-profit cycle stood so far above this price, in percent of the entry price. */
  ghost predicate FellFromPeak(h: seq<Tick>, t: Tick, percent: real, lv: Levels) {
    exists u :: u in h && IsTakeCycle(u, lv) && (u.price - t.price) * 100.0 >= percent * lv.entryPrice
  }

  lemma GaveBackFell(h: seq<Tick>, t: Tick, giveback: real, lv: Levels)
    requires GaveBack(Calm(h, lv), t, giveback, lv)
    ensures FellFromPeak(h, t, giveback, lv)
  {
    var calm := Calm(h, lv);
    var i :| 0 <= i < |calm| && TakeSeen(calm[i], lv)
             && PnlPct(calm[i].price, lv) - PnlPct(t.price, lv) >= giveback;
    var u := calm[i];
    CalmCycles(h, lv, u);
    GivebackInPrices(u.price, t.price, giveback, lv);
    assert u in h && IsTakeCycle(u, lv);
  }

  lemma FallGivesBack(h: seq<Tick>, t: Tick, giveback: real, lv: Levels)
    requires FellFromPeak(h, t, giveback, lv)
    ensures GaveBack(Calm(h, lv), t, giveback, lv)
  {
    var u :| u in h && IsTakeCycle(u, lv) && (u.price - t.price) * 100.0 >= giveback * lv.entryPrice;
    CalmCycles(h, lv, u);
    var calm := Calm(h, lv);
    var i :| 0 <= i < |calm| && calm[i] == u;
    GivebackInPrices(u.price, t.price, giveback, lv);
    assert TakeSeen(calm[i], lv);
  }

  lemma GaveBackInPrices(h: seq<Tick>, t: Tick, giveback: real, lv: Levels)
    ensures GaveBack(Calm(h, lv), t, giveback, lv) <==> FellFromPeak(h, t, giveback, lv)
  {
    if GaveBack(Calm(h, lv), t, giveback, lv) {
      GaveBackFell(h, t, giveback, lv);
    }
    if FellFromPeak(h, t, giveback, lv) {
      FallGivesBack(h, t, giveback, lv);
    }
  }

  /**
   A price above the stop exits, and with which reason: at the take-profit level without confirmation,
   after a fall from the highest take-profit price, or after an unbroken run of take-profit cycles,
   breaches of the stop left out.
   */
  lemma TakeExitsInPrices(cfg: Config, h: seq<Tick>, t: Tick, lv: Levels, run: int)
    requires lv.stopLoss.Some? ==> t.price > lv.stopLoss.value
    requires TrailingRun(Calm(h + [t], lv), run, TakeTest(lv))
    ensures var atLevel := lv.takeProfit.Some? && t.price >= lv.takeProfit.value;
            var held := HeldLongEnough(t, lv, cfg.take.minHoldMinutes);
            ReasonAfter(cfg, Replay(h, lv), t, lv) ==
            if atLevel && !cfg.take.enabled then Some(TakeImmediate)
            else if cfg.take.enabled && cfg.take.trailingEnabled && held
                 && FellFromPeak(h + [t], t, cfg.take.trailingGivebackPct, lv)
            then Some(TakeTrail)
            else if atLevel && held && run >= cfg.take.cycles then Some(TakeConfirmed)
            else None
  {
    TakeExitsExactlyWhen(cfg, h, t, lv, run);
    MinHoldInSeconds(t, lv, cfg);
    GaveBackInPrices(h + [t], t, cfg.take.trailingGivebackPct, lv);
  }
}
