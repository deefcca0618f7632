/**
 The life of the position rows as a state machine: every step the program takes, interleaved with an
 adversarial broker, and what holds over all runs.
 */
module Lifecycle {
  import opened Common
  import opened Positions
  import opened ProviderOrders
  import opened PositionStore

  /**
   The local tables, the broker's orders, and for each row the exit orders ever submitted for it.
   `stored` are the local order snapshots, possibly out of date; `broker` is the truth.
   */
  datatype World = World(rows: seq<Row>, overrides: map<(Account, string), bool>,
                         stored: map<string, OrderSnapshot>, broker: map<string, OrderSnapshot>,
                         exits: seq<set<string>>)

  /**
   `SubmitExit` covers the submission and the sync right after it: `reported` says that the answer
   carried the order's identifier, `seen` that the sync stored the order.
   */
  datatype Step =
    | BrokerMoves(orders: map<string, OrderSnapshot>)
    | Sync(ids: set<string>)
    | Reconcile(account: Account, v: View)
    | Recover(account: Account, v: View, after: seq<Row>)
    | SubmitExit(id: nat, price: real, brokerId: string, snapshot: OrderSnapshot, reported: bool, seen: bool)
    | Buy(account: Account, symbol: string, stamp: int, price: real, shares: int, orderId: string)
    | Track(account: Account, symbol: string, held: Option<Held>, stamp: int, origin: Origin)
    | Untrack(account: Account, symbol: string)

  const START := World([], map[], map[], map[], [])

  /** Exit histories for a table that has grown: the new rows have none. */
  function Grown(exits: seq<set<string>>, n: nat): (r: seq<set<string>>)
    ensures |exits| <= n ==> |r| == n && exits <= r && forall i :: |exits| <= i < n ==> r[i] == {}
  {
    if |exits| < n then exits + seq(n - |exits|, _ => {}) else exits
  }

  /** Orders at the broker never vanish and never leave a terminal status. */
  predicate BrokerProgress(before: map<string, OrderSnapshot>, after: map<string, OrderSnapshot>) {
    forall id :: id in before ==> id in after && (IsTerminal(before[id].status) ==> IsTerminal(after[id].status))
  }

  /** When a step can happen. */
  ghost predicate Enabled(w: World, s: Step) {
    match s
    case BrokerMoves(orders) => BrokerProgress(w.broker, orders)
    case Sync(_) => true
    case Reconcile(_, v) => v.orders == w.stored
    case Recover(account, v, after) => IsRecovery(w.rows, after, account, w.overrides, v)
    case SubmitExit(id, _, brokerId, _, _, _) =>
      && id < |w.rows| && id < |w.exits| && MayExit(w.rows[id], w.stored)
      && brokerId !in w.broker && !IsBlank(brokerId)
    case Buy(_, _, _, _, shares, _) => shares > 0
    case Track(_, _, _, _, _) => true
    case Untrack(_, _) => true
  }

  function AfterExit(w: World, id: nat, price: real, brokerId: string, snapshot: OrderSnapshot,
                     reported: bool, seen: bool): World
    requires id < |w.rows| && id < |w.exits|
  {
    w.(rows := w.rows[id := ExitMarked(w.rows[id], price, if reported then brokerId else "")],
       broker := w.broker[brokerId := snapshot],
       stored := if seen then w.stored[brokerId := snapshot] else w.stored,
       exits := w.exits[id := w.exits[id] + {brokerId}])
  }

  function WithRows(w: World, rows: seq<Row>): World {
    w.(rows := rows, exits := Grown(w.exits, |rows|))
  }

  /** The world after an enabled step. */
  ghost function After(w: World, s: Step): World
    requires Enabled(w, s)
  {
    match s
    case BrokerMoves(orders) => w.(broker := orders)
    case Sync(ids) => w.(stored := w.stored + map id | id in ids && id in w.broker :: w.broker[id])
    case Reconcile(account, v) => WithRows(w, Reconciled(w.rows, account, v))
    case Recover(_, _, after) => WithRows(w, after)
    case SubmitExit(id, price, brokerId, snapshot, reported, seen) =>
      AfterExit(w, id, price, brokerId, snapshot, reported, seen)
    case Buy(account, symbol, stamp, price, shares, orderId) =>
      WithRows(w, Bought(w.rows, account, symbol, stamp, price, shares, orderId))
    case Track(account, symbol, held, stamp, origin) =>
      var outcome := TrackOutcome(w.rows, account, symbol, held);
      WithRows(w, TrackedRows(w.rows, account, symbol, held, stamp, origin))
      .(overrides := if outcome.Tracked? || outcome.AlreadyTracked?
                     then w.overrides[(account, symbol) := true] else w.overrides)
    case Untrack(account, symbol) =>
      w.(rows := Released(w.rows, account, symbol), overrides := w.overrides[(account, symbol) := false])
  }

  ghost predicate IsRun(ws: seq<World>, steps: seq<Step>) {
    && |ws| == |steps| + 1 && ws[0] == START
    && forall k :: 0 <= k < |steps| ==> Enabled(ws[k], steps[k]) && ws[k + 1] == After(ws[k], steps[k])
  }

  // ---- One open row per account and symbol ----------------------------------------------------

  lemma StepKeepsConsistent(w: World, s: Step)
    requires Consistent(w.rows) && Enabled(w, s)
    ensures Consistent(After(w, s).rows)
  {
    match s
    case BrokerMoves(_) =>
    case Sync(_) =>
    case Reconcile(account, v) => ReconcileKeepsConsistent(w.rows, account, v);
    case Recover(account, v, after) => RecoveryKeepsConsistent(w.rows, after, account, w.overrides, v);
    case SubmitExit(id, price, _, _, _, _) =>
    case Buy(account, symbol, stamp, price, shares, orderId) =>
      BuyKeepsConsistent(w.rows, account, symbol, stamp, price, shares, orderId);
    case Track(account, symbol, held, stamp, origin) =>
      TrackKeepsConsistent(w.rows, account, symbol, held, stamp, origin);
    case Untrack(account, symbol) => UntrackKeepsConsistent(w.rows, account, symbol);
  }

  /** Over every run: at most one open row per account and symbol, each with its true cost basis. */
  lemma {:induction false} RunsStayConsistent(ws: seq<World>, steps: seq<Step>)
    requires IsRun(ws, steps)
    ensures Consistent(ws[|steps|].rows)
    decreases |steps|
  {
    if steps != [] {
      var n := |steps| - 1;
      assert IsRun(ws[..n + 1], steps[..n]);
      RunsStayConsistent(ws[..n + 1], steps[..n]);
      StepKeepsConsistent(ws[n], steps[n]);
    }
  }

  // ---- How a row stops being open -------------------------------------------------------------

  /**
   A row stops being open only when reconciliation closes it or untracking releases it, and then for
   good; an exit submission leaves it open with the same shares and cost.
   */
  lemma OnlyReconcileOrUntrackEndsARow(w: World, s: Step, i: nat)
    requires Enabled(w, s) && i < |w.rows|
    ensures i < |After(w, s).rows|
    ensures var r, r' := w.rows[i], After(w, s).rows[i];
            && (r.status != Open ==> r'.status == r.status)
            && (r.status == Open && r'.status == Closed <==>
                  s.Reconcile? && r.account == s.account && r.status == Open && Closes(r, s.v))
            && (r.status == Open && r'.status == Manual <==>
                  s.Untrack? && r.account == s.account && r.symbol == s.symbol && r.status == Open)
            && (s.SubmitExit? && r.status == Open ==>
                  r'.status == Open && r'.shares == r.shares && r'.costBasis == r.costBasis)
  {
  }

  // ---- What the user released stays released ---------------------------------------------------

  /** The step tracks the symbol, or finds it tracked, and so puts it under auto rules again. */
  ghost predicate TracksAgain(w: World, s: Step, account: Account, symbol: string) {
    && s.Track? && s.account == account && s.symbol == symbol
    && var outcome := TrackOutcome(w.rows, account, symbol, s.held); outcome.Tracked? || outcome.AlreadyTracked?
  }

  /** Tracking a symbol, or finding it tracked, puts it under auto rules, and changes no other override. */
  lemma TrackingSetsOverride(w: World, s: Step, other: (Account, string))
    requires Enabled(w, s) && s.Track?
    ensures TracksAgain(w, s, s.account, s.symbol) <==>
            s.held.Some? && s.held.value.qty >= 1.0 && s.held.value.avgEntry > 0.0
    ensures TracksAgain(w, s, s.account, s.symbol) ==>
              (s.account, s.symbol) in After(w, s).overrides && After(w, s).overrides[(s.account, s.symbol)]
    ensures other != (s.account, s.symbol) || !TracksAgain(w, s, s.account, s.symbol) ==>
              (other in After(w, s).overrides <==> other in w.overrides)
              && (other in w.overrides ==> After(w, s).overrides[other] == w.overrides[other])
  {
  }

  lemma StepKeepsManual(w: World, s: Step, account: Account, symbol: string)
    requires Enabled(w, s) && !TracksAgain(w, s, account, symbol)
    requires (account, symbol) in w.overrides && !w.overrides[(account, symbol)]
    ensures (account, symbol) in After(w, s).overrides && !After(w, s).overrides[(account, symbol)]
  {
  }

  lemma {:induction false} ReleasedStaysManual(ws: seq<World>, steps: seq<Step>, m: nat, n: nat, account: Account,
                                               symbol: string)
    requires IsRun(ws, steps) && m < n <= |steps| && steps[m] == Untrack(account, symbol)
    requires forall k :: m < k < n ==> !TracksAgain(ws[k], steps[k], account, symbol)
    ensures (account, symbol) in ws[n].overrides && !ws[n].overrides[(account, symbol)]
    decreases n
  {
    if n == m + 1 {
      assert ws[n] == After(ws[m], steps[m]);
    } else {
      ReleasedStaysManual(ws, steps, m, n - 1, account, symbol);
      StepKeepsManual(ws[n - 1], steps[n - 1], account, symbol);
    }
  }

  lemma OtherAccountsAreNotRecovered(rows: seq<Row>, after: seq<Row>, recovered: Account,
                                     overrides: map<(Account, string), bool>, v: View, account: Account, symbol: string)
    requires IsRecovery(rows, after, recovered, overrides, v) && account != recovered
    ensures HasOpen(after, account, symbol) <==> HasOpen(rows, account, symbol)
  {
    if HasOpen(rows, account, symbol) {
      var i :| 0 <= i < |rows| && OpenIn(rows[i], account) && rows[i].symbol == symbol;
      assert OpenIn(after[i], account);
    }
  }

  /**
   Over every run: once a symbol was released, no recovery opens it before it is tracked again, whatever
   the broker holds.
   */
  lemma ReleasedSymbolIsNotRecovered(ws: seq<World>, steps: seq<Step>, m: nat, n: nat, account: Account, symbol: string)
    requires IsRun(ws, steps) && m < n < |steps| && steps[m] == Untrack(account, symbol)
    requires forall k :: m < k < n ==> !TracksAgain(ws[k], steps[k], account, symbol)
    requires steps[n].Recover?
    ensures HasOpen(ws[n + 1].rows, account, symbol) <==> HasOpen(ws[n].rows, account, symbol)
  {
    ReleasedStaysManual(ws, steps, m, n, account, symbol);
    var s, rows := steps[n], ws[n].rows;
    assert ws[n + 1] == After(ws[n], s);
    if s.account == account {
      ManualSymbolIsNotRecovered(rows, s.after, account, ws[n].overrides, s.v, symbol);
    } else {
      OtherAccountsAreNotRecovered(rows, s.after, s.account, ws[n].overrides, s.v, account, symbol);
    }
  }

  // ---- At most one active exit order per position ---------------------------------------------

  predicate ActiveAtBroker(w: World, id: string) {
    id in w.broker && !IsTerminal(w.broker[id].status)
  }

  /** A submission whose order identifier came back and whose order the next sync stored. */
  predicate Healthy(s: Step) {
    s.SubmitExit? ==> s.reported && s.seen
  }

  /** Stored snapshots may be old, but a terminal one tells the truth. */
  ghost predicate StoredIsSound(w: World) {
    forall id :: id in w.stored ==>
      id in w.broker && (IsTerminal(w.stored[id].status) ==> IsTerminal(w.broker[id].status))
  }

  /** An exit order still active for an open row is the one the row remembers, and it is stored. */
  ghost predicate RememberedExit(w: World, i: nat, e: string)
    requires i < |w.rows|
  {
    w.rows[i].status == Open ==> w.rows[i].exitOrderId == Some(e) && e in w.stored && !IsBlank(e)
  }

  ghost predicate ExitsAreRemembered(w: World) {
    && |w.exits| == |w.rows|
    && (forall i, e :: 0 <= i < |w.exits| && e in w.exits[i] ==> e in w.broker)
    && (forall i, e :: 0 <= i < |w.exits| && e in w.exits[i] && ActiveAtBroker(w, e) ==> RememberedExit(w, i, e))
  }

  ghost predicate AtMostOneActiveExit(w: World) {
    forall i, a, b ::
      (0 <= i < |w.exits| && a in w.exits[i] && b in w.exits[i] && ActiveAtBroker(w, a) && ActiveAtBroker(w, b))
      ==> a == b
  }

  ghost predicate ExitInvariant(w: World) {
    StoredIsSound(w) && ExitsAreRemembered(w) && AtMostOneActiveExit(w)
  }

  /** The guard of a submission: no exit order of the row is active any more. */
  lemma MayExitMeansNoneActive(w: World, i: nat)
    requires ExitInvariant(w) && i < |w.rows| && MayExit(w.rows[i], w.stored)
    ensures forall e :: e in w.exits[i] ==> !ActiveAtBroker(w, e)
  {
    forall e | e in w.exits[i] ensures !ActiveAtBroker(w, e) {
      if ActiveAtBroker(w, e) {
        assert RememberedExit(w, i, e);
        assert ExitOrderActive(w.stored, e);
        assert false;
      }
    }
  }

  lemma SubmitKeepsExitInvariant(w: World, s: Step)
    requires ExitInvariant(w) && Enabled(w, s) && s.SubmitExit? && Healthy(s)
    ensures ExitInvariant(After(w, s))
  {
    MayExitMeansNoneActive(w, s.id);
    var w' := After(w, s);
    forall i, e | 0 <= i < |w'.exits| && e in w'.exits[i] && ActiveAtBroker(w', e)
      ensures RememberedExit(w', i, e) && (i == s.id ==> e == s.brokerId)
      ensures i != s.id ==> e in w.exits[i] && ActiveAtBroker(w, e)
    {
      if i != s.id {
        assert e in w.broker && RememberedExit(w, i, e);
      } else if e != s.brokerId {
        assert false;
      }
    }
  }

  /** Steps that only add rows, or change open rows without touching their exit order. */
  lemma RowsStepKeepsExitInvariant(w: World, rows: seq<Row>, w': World)
    requires ExitInvariant(w) && |w.rows| <= |rows|
    requires forall i :: 0 <= i < |w.rows| && rows[i].status == Open ==>
               w.rows[i].status == Open && rows[i].exitOrderId == w.rows[i].exitOrderId
    requires w' == WithRows(w, rows).(overrides := w'.overrides)
    ensures ExitInvariant(w')
  {
    forall i, e | 0 <= i < |w'.exits| && e in w'.exits[i] ensures i < |w.exits| && e in w.exits[i] {
    }
    forall i, e | 0 <= i < |w'.exits| && e in w'.exits[i] && ActiveAtBroker(w', e) ensures RememberedExit(w', i, e) {
      assert ActiveAtBroker(w, e) && RememberedExit(w, i, e);
    }
    assert forall e :: ActiveAtBroker(w', e) <==> ActiveAtBroker(w, e);
  }

  lemma WorldStepKeepsExitInvariant(w: World, s: Step)
    requires ExitInvariant(w) && Enabled(w, s) && (s.BrokerMoves? || s.Sync?)
    ensures ExitInvariant(After(w, s))
  {
    var w' := After(w, s);
    forall i, e | 0 <= i < |w'.exits| && e in w'.exits[i] && ActiveAtBroker(w', e)
      ensures ActiveAtBroker(w, e) && RememberedExit(w', i, e)
    {
      assert e in w.broker;
      assert ActiveAtBroker(w, e) && RememberedExit(w, i, e);
    }
  }

  lemma StepKeepsExitInvariant(w: World, s: Step)
    requires ExitInvariant(w) && Enabled(w, s) && Healthy(s)
    ensures ExitInvariant(After(w, s))
  {
    match s
    case BrokerMoves(_) => WorldStepKeepsExitInvariant(w, s);
    case Sync(_) => WorldStepKeepsExitInvariant(w, s);
    case SubmitExit(_, _, _, _, _, _) => SubmitKeepsExitInvariant(w, s);
    case Reconcile(account, v) =>
      forall i | 0 <= i < |w.rows| && Reconciled(w.rows, account, v)[i].status == Open
        ensures w.rows[i].status == Open
        ensures Reconciled(w.rows, account, v)[i].exitOrderId == w.rows[i].exitOrderId
      {
        OpenRowsOfReconciled(w.rows, account, v, i);
      }
      RowsStepKeepsExitInvariant(w, Reconciled(w.rows, account, v), After(w, s));
    case _ => RowsStepKeepsExitInvariant(w, After(w, s).rows, After(w, s));
  }

  /**
   Over every run whose submissions come back with an identifier and are stored by the sync that
   follows, however stale the other snapshots get, no position ever has two active exit orders.
   */
  lemma {:induction false} NeverTwoActiveExits(ws: seq<World>, steps: seq<Step>)
    requires IsRun(ws, steps) && forall k :: 0 <= k < |steps| ==> Healthy(steps[k])
    ensures ExitInvariant(ws[|steps|]) && AtMostOneActiveExit(ws[|steps|])
    decreases |steps|
  {
    if steps != [] {
      var n := |steps| - 1;
      assert IsRun(ws[..n + 1], steps[..n]);
      NeverTwoActiveExits(ws[..n + 1], steps[..n]);
      StepKeepsExitInvariant(ws[n], steps[n]);
    }
  }

  /**
   Both conditions are needed: right after a submission that is still working, the guard lets a
   second one through exactly when the identifier was missing or the order was not stored.
   */
  lemma SecondExitAllowedExactlyWhen(w: World, s: Step)
    requires Enabled(w, s) && s.SubmitExit? && s.snapshot.status == Working
    requires StoredIsSound(w)
    ensures ActiveAtBroker(After(w, s), s.brokerId)
    ensures MayExit(After(w, s).rows[s.id], After(w, s).stored) <==> !(s.reported && s.seen)
  {
    assert IsBlank("");
  }

  // ---- At most one active exit order per symbol -------------------------------------------------

  predicate IsOf(r: Row, account: Account, symbol: string) {
    r.account == account && r.symbol == symbol
  }

  /** An exit order of some row of the symbol, open or not, is still active. */
  ghost predicate ExitWorking(w: World, account: Account, symbol: string) {
    exists i, e :: 0 <= i < |w.rows| && i < |w.exits| && IsOf(w.rows[i], account, symbol)
                   && e in w.exits[i] && ActiveAtBroker(w, e)
  }

  /** The step will open a fresh row for the symbol; this can be told before the step. */
  ghost predicate Opens(w: World, s: Step, account: Account, symbol: string) {
    match s
    case Buy(a, sym, _, _, _, _) => a == account && sym == symbol && !HasOpen(w.rows, a, sym)
    case Track(a, sym, held, _, _) => a == account && sym == symbol && TrackOutcome(w.rows, a, sym, held) == Tracked
    case Recover(a, v, _) => a == account && Recoverable(w.rows, a, w.overrides, v, symbol)
    case _ => false
  }

  /** No symbol is opened while an exit order of an earlier row of it is active. */
  ghost predicate OpensCalmly(w: World, s: Step) {
    forall account, symbol :: Opens(w, s, account, symbol) ==> !ExitWorking(w, account, symbol)
  }

  ghost predicate AtMostOneActivePerSymbol(w: World)
    requires |w.exits| == |w.rows|
  {
    forall i, j, a, b ::
      (0 <= i < |w.rows| && 0 <= j < |w.rows| && IsOf(w.rows[j], w.rows[i].account, w.rows[i].symbol)
       && a in w.exits[i] && b in w.exits[j] && ActiveAtBroker(w, a) && ActiveAtBroker(w, b))
      ==> i == j && a == b
  }

  /** Only the open row of a symbol can have an active exit order, if the symbol has an open row. */
  ghost predicate OthersAreDone(w: World)
    requires |w.exits| == |w.rows|
  {
    forall i, j, e ::
      (0 <= i < |w.rows| && 0 <= j < |w.rows| && w.rows[j].status == Open
       && IsOf(w.rows[i], w.rows[j].account, w.rows[j].symbol) && e in w.exits[i] && ActiveAtBroker(w, e))
      ==> i == j
  }

  ghost predicate SymbolInvariant(w: World) {
    Consistent(w.rows) && ExitInvariant(w) && OthersAreDone(w) && AtMostOneActivePerSymbol(w)
  }

  /** What a step that opens nothing and submits nothing may do to rows and orders. */
  ghost predicate KeepsExits(w: World, w': World) {
    && |w.rows| <= |w'.rows| && |w.exits| == |w.rows| && |w'.exits| == |w'.rows|
    && (forall i :: 0 <= i < |w.rows| ==>
          && IsOf(w'.rows[i], w.rows[i].account, w.rows[i].symbol) && w'.exits[i] == w.exits[i]
          && (w'.rows[i].status == Open ==> w.rows[i].status == Open))
    && (forall i :: |w.rows| <= i < |w'.rows| ==> w'.exits[i] == {})
    && forall i, e :: 0 <= i < |w.exits| && e in w.exits[i] && ActiveAtBroker(w', e) ==> ActiveAtBroker(w, e)
  }

  lemma KeptExitsStaySingle(w: World, w': World)
    requires KeepsExits(w, w') && AtMostOneActivePerSymbol(w)
    ensures AtMostOneActivePerSymbol(w')
  {
  }

  lemma KeptExitsStayDone(w: World, w': World)
    requires KeepsExits(w, w') && OthersAreDone(w)
    requires forall j :: |w.rows| <= j < |w'.rows| && w'.rows[j].status == Open ==>
               !ExitWorking(w, w'.rows[j].account, w'.rows[j].symbol)
    ensures OthersAreDone(w')
  {
    forall i, j, e |
      (0 <= i < |w'.rows| && 0 <= j < |w'.rows| && w'.rows[j].status == Open
       && IsOf(w'.rows[i], w'.rows[j].account, w'.rows[j].symbol) && e in w'.exits[i] && ActiveAtBroker(w', e))
      ensures i == j
    {
      assert i < |w.rows| && ActiveAtBroker(w, e) && e in w.exits[i];
      if j < |w.rows| {
        assert w.rows[j].status == Open && IsOf(w.rows[i], w.rows[j].account, w.rows[j].symbol);
      } else {
        assert IsOf(w.rows[i], w'.rows[j].account, w'.rows[j].symbol);
      }
    }
  }

  lemma StepKeepsExits(w: World, s: Step)
    requires ExitInvariant(w) && Enabled(w, s) && !s.SubmitExit?
    ensures KeepsExits(w, After(w, s))
  {
    forall i, e | 0 <= i < |w.exits| && e in w.exits[i] && ActiveAtBroker(After(w, s), e)
      ensures ActiveAtBroker(w, e)
    {
      assert e in w.broker;
    }
  }

  /** A fresh open row is one the step was seen to open beforehand. */
  lemma FreshOpenRowsAreOpened(w: World, s: Step, j: nat)
    requires Enabled(w, s) && |w.rows| <= j < |After(w, s).rows| && After(w, s).rows[j].status == Open
    ensures Opens(w, s, After(w, s).rows[j].account, After(w, s).rows[j].symbol)
  {
    if s.Reconcile? {
      OpenRowsOfReconciled(w.rows, s.account, s.v, j);
    }
  }

  /** After a submission the symbol's only active exit order is the new one; other rows are as before. */
  lemma ActiveAfterSubmission(w: World, s: Step, i: nat, e: string)
    requires SymbolInvariant(w) && Enabled(w, s) && s.SubmitExit? && Healthy(s)
    requires i < |After(w, s).exits| && e in After(w, s).exits[i] && ActiveAtBroker(After(w, s), e)
    ensures i == s.id ==> e == s.brokerId
    ensures i != s.id ==> e in w.exits[i] && ActiveAtBroker(w, e)
    ensures IsOf(w.rows[i], w.rows[s.id].account, w.rows[s.id].symbol) ==> i == s.id
  {
    MayExitMeansNoneActive(w, s.id);
    if i != s.id {
      assert e in w.broker && ActiveAtBroker(w, e);
    }
  }

  lemma SubmissionKeepsDone(w: World, s: Step)
    requires SymbolInvariant(w) && Enabled(w, s) && s.SubmitExit? && Healthy(s)
    ensures OthersAreDone(After(w, s))
  {
    var w' := After(w, s);
    forall i, j, e |
      (0 <= i < |w'.rows| && 0 <= j < |w'.rows| && w'.rows[j].status == Open
       && IsOf(w'.rows[i], w'.rows[j].account, w'.rows[j].symbol) && e in w'.exits[i] && ActiveAtBroker(w', e))
      ensures i == j
    {
      ActiveAfterSubmission(w, s, i, e);
      assert w.rows[j].status == Open && IsOf(w.rows[i], w.rows[j].account, w.rows[j].symbol);
    }
  }

  lemma SubmissionKeepsSingle(w: World, s: Step)
    requires SymbolInvariant(w) && Enabled(w, s) && s.SubmitExit? && Healthy(s)
    ensures AtMostOneActivePerSymbol(After(w, s))
  {
    var w' := After(w, s);
    forall i, j, a, b |
      (0 <= i < |w'.rows| && 0 <= j < |w'.rows| && IsOf(w'.rows[j], w'.rows[i].account, w'.rows[i].symbol)
       && a in w'.exits[i] && b in w'.exits[j] && ActiveAtBroker(w', a) && ActiveAtBroker(w', b))
      ensures i == j && a == b
    {
      ActiveAfterSubmission(w, s, i, a);
      ActiveAfterSubmission(w, s, j, b);
      assert IsOf(w.rows[j], w.rows[i].account, w.rows[i].symbol);
    }
  }

  lemma StepKeepsSymbolInvariant(w: World, s: Step)
    requires SymbolInvariant(w) && Enabled(w, s) && Healthy(s) && OpensCalmly(w, s)
    ensures SymbolInvariant(After(w, s))
  {
    StepKeepsConsistent(w, s);
    StepKeepsExitInvariant(w, s);
    if s.SubmitExit? {
      SubmissionKeepsDone(w, s);
      SubmissionKeepsSingle(w, s);
    } else {
      var w' := After(w, s);
      StepKeepsExits(w, s);
      KeptExitsStaySingle(w, w');
      forall j | |w.rows| <= j < |w'.rows| && w'.rows[j].status == Open
        ensures !ExitWorking(w, w'.rows[j].account, w'.rows[j].symbol)
      {
        FreshOpenRowsAreOpened(w, s, j);
      }
      KeptExitsStayDone(w, w');
    }
  }

  /**
   Over every run whose submissions are reported and stored and that opens no symbol while an exit
   order of an earlier row is active, no account and symbol ever has two active exit orders.
   */
  lemma {:induction false} NeverTwoActiveExitsPerSymbol(ws: seq<World>, steps: seq<Step>)
    requires IsRun(ws, steps) && forall k :: 0 <= k < |steps| ==> Healthy(steps[k]) && OpensCalmly(ws[k], steps[k])
    ensures SymbolInvariant(ws[|steps|])
    decreases |steps|
  {
    if steps != [] {
      var n := |steps| - 1;
      assert IsRun(ws[..n + 1], steps[..n]);
      NeverTwoActiveExitsPerSymbol(ws[..n + 1], steps[..n]);
      StepKeepsSymbolInvariant(ws[n], steps[n]);
    }
  }

  /** An opened symbol has a fresh open row that remembers no exit order. */
  lemma OpenedRowIsFresh(w: World, s: Step, account: Account, symbol: string) returns (j: nat)
    requires Enabled(w, s) && |w.exits| == |w.rows| && Opens(w, s, account, symbol)
    ensures var w' := After(w, s);
            && |w.rows| <= j < |w'.rows| && IsOf(w'.rows[j], account, symbol) && w'.rows[j].status == Open
            && |w'.exits| == |w'.rows| && MayExit(w'.rows[j], w'.stored)
  {
    var w' := After(w, s);
    if s.Recover? {
      j :| 0 <= j < |w'.rows| && OpenIn(w'.rows[j], account) && w'.rows[j].symbol == symbol;
    } else {
      j := |w.rows|;
    }
  }

  /**
   The converse: opening a symbol while an exit order of it is active gives a fresh row that may exit
   as well, and one more ordinary, healthy submission then makes two active exit orders.
   */
  lemma OpeningWhileExitWorksAllowsSecond(w: World, s: Step, account: Account, symbol: string, brokerId: string)
    returns (j: nat, again: Step)
    requires Enabled(w, s) && |w.exits| == |w.rows| && Opens(w, s, account, symbol) && ExitWorking(w, account, symbol)
    requires brokerId !in w.broker && !IsBlank(brokerId)
    ensures var w' := After(w, s);
            && |w.rows| <= j < |w'.rows| && IsOf(w'.rows[j], account, symbol) && MayExit(w'.rows[j], w'.stored)
            && Enabled(w', again) && again.SubmitExit? && Healthy(again)
            && |After(w', again).exits| == |After(w', again).rows|
            && !AtMostOneActivePerSymbol(After(w', again))
  {
    var w' := After(w, s);
    j := OpenedRowIsFresh(w, s, account, symbol);
    again := SubmitExit(j, 1.0, brokerId, OrderSnapshot(Working, 0.0, 1.0), true, true);
    var i, e :| 0 <= i < |w.rows| && IsOf(w.rows[i], account, symbol) && e in w.exits[i] && ActiveAtBroker(w, e);
    var w'' := After(w', again);
    assert e in w''.exits[i] && brokerId in w''.exits[j];
    assert ActiveAtBroker(w'', e) && ActiveAtBroker(w'', brokerId);
    assert IsOf(w''.rows[j], w''.rows[i].account, w''.rows[i].symbol);
  }

  lemma HastyOpeningIsUnsafe(w: World, s: Step, account: Account, symbol: string)
    requires |w.exits| == |w.rows| && Enabled(w, s) && Opens(w, s, account, symbol) && ExitWorking(w, account, symbol)
    ensures |After(w, s).exits| == |After(w, s).rows| && !OthersAreDone(After(w, s))
  {
    var j := OpenedRowIsFresh(w, s, account, symbol);
    var i, e :| 0 <= i < |w.rows| && IsOf(w.rows[i], account, symbol) && e in w.exits[i] && ActiveAtBroker(w, e);
    var w' := After(w, s);
    assert IsOf(w'.rows[i], w'.rows[j].account, w'.rows[j].symbol) && e in w'.exits[i] && ActiveAtBroker(w', e);
  }

  /**
   So the guard is exact: from a safe world an enabled healthy step leads to a safe world if and only
   if it opens no symbol with an active exit order.
   */
  lemma StepIsSafeExactlyWhen(w: World, s: Step)
    requires SymbolInvariant(w) && Enabled(w, s) && Healthy(s)
    ensures SymbolInvariant(After(w, s)) <==> OpensCalmly(w, s)
  {
    if OpensCalmly(w, s) {
      StepKeepsSymbolInvariant(w, s);
    } else {
      var account, symbol :| Opens(w, s, account, symbol) && ExitWorking(w, account, symbol);
      HastyOpeningIsUnsafe(w, s, account, symbol);
    }
  }

  lemma EndedSymbolIsNotOpen(w: World, s: Step, i: nat)
    requires Consistent(w.rows) && Enabled(w, s) && i < |w.rows|
    requires w.rows[i].status == Open && After(w, s).rows[i].status != Open
    ensures !HasOpen(After(w, s).rows, w.rows[i].account, w.rows[i].symbol)
  {
    var after, account, symbol := After(w, s).rows, w.rows[i].account, w.rows[i].symbol;
    forall j | 0 <= j < |after| && OpenIn(after[j], account) ensures after[j].symbol != symbol {
      if s.Reconcile? {
        OpenRowsOfReconciled(w.rows, s.account, s.v, j);
      }
    }
  }

  /**
   How the unguarded case arises: ending a row by reconciliation or untracking leaves its exit order
   active and the symbol without an open row, so any later opening of it is one.
   */
  lemma EndedRowLeavesExitWorking(w: World, s: Step, i: nat, e: string)
    requires Consistent(w.rows) && Enabled(w, s) && |w.exits| == |w.rows| && i < |w.rows|
    requires w.rows[i].status == Open && e in w.exits[i] && ActiveAtBroker(w, e)
    requires After(w, s).rows[i].status != Open
    ensures |After(w, s).exits| == |After(w, s).rows|
    ensures ExitWorking(After(w, s), w.rows[i].account, w.rows[i].symbol)
    ensures !HasOpen(After(w, s).rows, w.rows[i].account, w.rows[i].symbol)
  {
    var w', account, symbol := After(w, s), w.rows[i].account, w.rows[i].symbol;
    assert IsOf(w'.rows[i], account, symbol) && e in w'.exits[i] && ActiveAtBroker(w', e);
    EndedSymbolIsNotOpen(w, s, i);
  }

  /**
   One such path needs no user at all: a snapshot without the symbol closes the row, and the recovery
   of a later snapshot with it opens a fresh row beside the exit order that is still active.
   */
  lemma CloseThenRecoverForgetsActiveExit(w: World, i: nat, e: string, gone: View, back: View, after: seq<Row>)
    requires Consistent(w.rows) && |w.exits| == |w.rows| && i < |w.rows| && w.rows[i].status == Open
    requires e in w.exits[i] && ActiveAtBroker(w, e) && gone.orders == w.stored && Closes(w.rows[i], gone)
    requires var account := w.rows[i].account;
             var closed := After(w, Reconcile(account, gone));
             && Recoverable(closed.rows, account, w.overrides, back, w.rows[i].symbol)
             && Enabled(closed, Recover(account, back, after))
    ensures var account, symbol := w.rows[i].account, w.rows[i].symbol;
            var closed := After(w, Reconcile(account, gone));
            var reopened := After(closed, Recover(account, back, after));
            && ActiveAtBroker(reopened, e)
            && exists j :: |closed.rows| <= j < |reopened.rows| && IsOf(reopened.rows[j], account, symbol)
                           && MayExit(reopened.rows[j], reopened.stored)
  {
    var account, symbol := w.rows[i].account, w.rows[i].symbol;
    var close := Reconcile(account, gone);
    EndedRowLeavesExitWorking(w, close, i, e);
    var j := OpenedRowIsFresh(After(w, close), Recover(account, back, after), account, symbol);
  }

  /** Another path: releasing a symbol and adopting it again. */
  lemma RetrackingForgetsActiveExit(w: World, i: nat, e: string, held: Held, stamp: int, origin: Origin)
    requires Consistent(w.rows) && i < |w.rows| && w.rows[i].status == Open
    requires w.rows[i].exitOrderId == Some(e) && ActiveAtBroker(w, e)
    requires held.qty >= 1.0 && held.avgEntry > 0.0
    ensures var account, symbol := w.rows[i].account, w.rows[i].symbol;
            var released := After(w, Untrack(account, symbol));
            var again := After(released, Track(account, symbol, Some(held), stamp, origin));
            && |again.rows| == |w.rows| + 1 && ActiveAtBroker(again, e)
            && OpenIn(again.rows[|w.rows|], account) && again.rows[|w.rows|].symbol == symbol
            && MayExit(again.rows[|w.rows|], again.stored)
  {
    UntrackKeepsConsistent(w.rows, w.rows[i].account, w.rows[i].symbol);
  }
}
