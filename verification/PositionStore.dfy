/** The position table as the program updates it: buy, track, untrack, exit, reconcile and recover. */
module PositionStore {
  import opened Common
  import opened Positions
  import opened ProviderOrders

  datatype Tracking = NoPosition | NotPositive | BelowOneShare | NoEntryPrice | AlreadyTracked | Tracked

  /** Every error of adopting a provider-held symbol, in the order the program reports them. */
  function TrackOutcome(rows: seq<Row>, account: Account, symbol: string, snapshot: Option<Held>): Tracking {
    if snapshot.None? then NoPosition
    else if snapshot.value.qty <= 0.0 then NotPositive
    else if snapshot.value.qty.Floor <= 0 then BelowOneShare
    else if snapshot.value.avgEntry <= 0.0 then NoEntryPrice
    else if HasOpen(rows, account, symbol) then AlreadyTracked
    else Tracked
  }

  function OpenRow(account: Account, symbol: string, stamp: int, price: real, shares: int,
                   orderId: Option<string>, origin: Origin): Row {
    Row(account, symbol, stamp, price, shares, CostOf(price, shares), Open, orderId, None,
        origin, None, origin, None, None, None)
  }

  function Bought(rows: seq<Row>, account: Account, symbol: string, stamp: int, price: real, shares: int,
                  orderId: string): seq<Row> {
    if HasOpen(rows, account, symbol) then rows
    else rows + [OpenRow(account, symbol, stamp, price, shares, Some(orderId), MlaiAuto)]
  }

  function TrackedRows(rows: seq<Row>, account: Account, symbol: string, snapshot: Option<Held>, stamp: int,
                       origin: Origin): seq<Row> {
    if TrackOutcome(rows, account, symbol, snapshot) == Tracked then
      rows + [OpenRow(account, symbol, stamp, snapshot.value.avgEntry, snapshot.value.qty.Floor, None, origin)]
    else rows
  }

  function ReleasedRow(r: Row, account: Account, symbol: string): Row {
    if OpenIn(r, account) && r.symbol == symbol then r.(status := Manual, exitOrigin := None, origin := r.entryOrigin)
    else r
  }

  function Released(rows: seq<Row>, account: Account, symbol: string): seq<Row> {
    seq(|rows|, i requires 0 <= i < |rows| => ReleasedRow(rows[i], account, symbol))
  }

  function ExitMarked(r: Row, price: real, orderId: string): Row {
    r.(exitDate := None, exitPrice := Some(price), pnl := Some(PnlOf(r.entryPrice, price, r.shares)),
       exitOrderId := Some(orderId), exitOrigin := Some(MlaiAuto), origin := MlaiAuto)
  }

  /** A stored exit order that may still fill; one that was never stored does not count. */
  predicate ExitOrderActive(orders: map<string, OrderSnapshot>, orderId: string) {
    if IsBlank(orderId) || orderId !in orders then false
    else
      var o := orders[orderId];
      if o.status == Filled && (o.qty <= 0.0 || o.filledQty + EPSILON >= o.qty) then false
      else !IsTerminal(o.status)
  }

  /** An exit is submitted unless the row's previous exit order is seen to be active. */
  predicate MayExit(r: Row, orders: map<string, OrderSnapshot>) {
    r.status == Open && !(r.exitOrderId.Some? && ExitOrderActive(orders, r.exitOrderId.value))
  }

  /**
   One open position in the sell loop: whether an exit rule fired, whether the sell window or the
   day-trade limit blocks it, the stored orders at that moment, and the broker's answer.
   */
  datatype ExitAttempt = ExitAttempt(id: nat, triggered: bool, blocked: bool, price: real,
                                     orders: map<string, OrderSnapshot>, answer: Option<string>)

  predicate Submits(rows: seq<Row>, a: ExitAttempt) {
    && a.id < |rows| && a.triggered && MayExit(rows[a.id], a.orders)
    && !a.blocked && a.answer.Some?
  }

  function AfterExit(rows: seq<Row>, a: ExitAttempt): seq<Row> {
    if Submits(rows, a) then rows[a.id := ExitMarked(rows[a.id], a.price, a.answer.value)] else rows
  }

  function AfterExits(rows: seq<Row>, attempts: seq<ExitAttempt>): (r: seq<Row>)
    ensures |r| == |rows|
  {
    if attempts == [] then rows else AfterExit(AfterExits(rows, attempts[..|attempts| - 1]), attempts[|attempts| - 1])
  }

  predicate DistinctIds(attempts: seq<ExitAttempt>) {
    forall i, j :: 0 <= i < j < |attempts| ==> attempts[i].id != attempts[j].id
  }

  /**
   In one sell loop every row gets at most one exit order: it is as before, or marked by its own
   attempt, which was decided on the row as the loop found it.
   */
  lemma {:induction false} EachRowExitsAtMostOnce(rows: seq<Row>, attempts: seq<ExitAttempt>, id: nat)
    requires DistinctIds(attempts) && id < |rows|
    ensures forall k :: 0 <= k < |attempts| && attempts[k].id == id ==>
              AfterExits(rows, attempts)[id] == AfterExit(rows, attempts[k])[id]
    ensures (forall k :: 0 <= k < |attempts| ==> attempts[k].id != id) ==> AfterExits(rows, attempts)[id] == rows[id]
  {
    if attempts != [] {
      var n := |attempts| - 1;
      EachRowExitsAtMostOnce(rows, attempts[..n], id);
      assert forall k :: 0 <= k < n ==> attempts[..n][k] == attempts[k];
    }
  }

  /** Of a stored order only the working status counts: a filled one is over, however its quantities read. */
  lemma ExitIsActiveExactlyWhen(orders: map<string, OrderSnapshot>, id: string)
    ensures ExitOrderActive(orders, id) <==> !IsBlank(id) && id in orders && orders[id].status == Working
  {
  }

  /**
   When an attempt submits: the rule fired, the row is open, no exit order of it is stored as working,
   nothing blocks it and the broker answers; the row then stays open with its shares and cost and
   remembers that order, and no other row changes.
   */
  lemma AttemptSubmitsExactlyWhen(rows: seq<Row>, a: ExitAttempt)
    requires a.id < |rows|
    ensures var r, after := rows[a.id], AfterExit(rows, a);
            if a.triggered && r.status == Open && !a.blocked && a.answer.Some?
               && !(r.exitOrderId.Some? && !IsBlank(r.exitOrderId.value)
                    && r.exitOrderId.value in a.orders && a.orders[r.exitOrderId.value].status == Working)
            then
              && |after| == |rows| && (forall i :: 0 <= i < |rows| && i != a.id ==> after[i] == rows[i])
              && after[a.id].exitOrderId == a.answer && after[a.id].status == Open
              && after[a.id].shares == r.shares && after[a.id].costBasis == r.costBasis
              && after[a.id].exitPrice == Some(a.price) && after[a.id].symbol == r.symbol
              && after[a.id].account == r.account && after[a.id].entryPrice == r.entryPrice
            else after == rows
  {
  }

  /** A position is adopted exactly if the broker holds a whole share at a known price and it is not open yet. */
  lemma TracksExactlyWhen(rows: seq<Row>, account: Account, symbol: string, snapshot: Option<Held>)
    ensures var outcome := TrackOutcome(rows, account, symbol, snapshot);
            && (outcome == Tracked <==> snapshot.Some? && snapshot.value.qty >= 1.0 && snapshot.value.avgEntry > 0.0
                                        && !HasOpen(rows, account, symbol))
            && (outcome == AlreadyTracked <==> snapshot.Some? && snapshot.value.qty >= 1.0
                                               && snapshot.value.avgEntry > 0.0 && HasOpen(rows, account, symbol))
            && (outcome == NoEntryPrice <==> snapshot.Some? && snapshot.value.qty >= 1.0
                                             && snapshot.value.avgEntry <= 0.0)
            && (outcome == BelowOneShare <==> snapshot.Some? && 0.0 < snapshot.value.qty < 1.0)
            && (outcome == NotPositive <==> snapshot.Some? && snapshot.value.qty <= 0.0)
            && (outcome == NoPosition <==> snapshot == None)
  {
  }

  /** What an adopted row and a bought row carry. */
  lemma NewRowsCarry(rows: seq<Row>, account: Account, symbol: string, snapshot: Option<Held>, stamp: int,
                     origin: Origin, price: real, shares: int, orderId: string)
    ensures TrackOutcome(rows, account, symbol, snapshot) == Tracked ==>
              var after := TrackedRows(rows, account, symbol, snapshot, stamp, origin);
              && |after| == |rows| + 1 && rows <= after
              && after[|rows|].account == account && after[|rows|].symbol == symbol && after[|rows|].status == Open
              && after[|rows|].entryPrice == snapshot.value.avgEntry && after[|rows|].entryStamp == stamp
              && after[|rows|].shares as real <= snapshot.value.qty < (after[|rows|].shares + 1) as real
              && after[|rows|].orderId == None && after[|rows|].exitOrderId == None
              && after[|rows|].entryOrigin == origin
    ensures !HasOpen(rows, account, symbol) ==>
              var after := Bought(rows, account, symbol, stamp, price, shares, orderId);
              && |after| == |rows| + 1 && rows <= after
              && after[|rows|].account == account && after[|rows|].symbol == symbol && after[|rows|].status == Open
              && after[|rows|].entryPrice == price && after[|rows|].shares == shares
              && after[|rows|].costBasis == price * shares as real && after[|rows|].entryStamp == stamp
              && after[|rows|].orderId == Some(orderId) && after[|rows|].exitOrderId == None
              && after[|rows|].entryOrigin == MlaiAuto
  {
  }

  // ---- What every step keeps ------------------------------------------------------------------

  lemma AppendKeepsConsistent(rows: seq<Row>, r: Row)
    requires Consistent(rows)
    requires r.shares >= 1 && r.costBasis == CostOf(r.entryPrice, r.shares)
    ensures !HasOpen(rows, r.account, r.symbol) ==> Consistent(rows + [r])
  {
  }

  lemma BuyKeepsConsistent(rows: seq<Row>, account: Account, symbol: string, stamp: int, price: real, shares: int,
                           orderId: string)
    requires Consistent(rows) && shares > 0
    ensures Consistent(Bought(rows, account, symbol, stamp, price, shares, orderId))
  {
    AppendKeepsConsistent(rows, OpenRow(account, symbol, stamp, price, shares, Some(orderId), MlaiAuto));
  }

  lemma TrackKeepsConsistent(rows: seq<Row>, account: Account, symbol: string, snapshot: Option<Held>, stamp: int,
                             origin: Origin)
    requires Consistent(rows)
    ensures Consistent(TrackedRows(rows, account, symbol, snapshot, stamp, origin))
  {
    if TrackOutcome(rows, account, symbol, snapshot) == Tracked {
      AppendKeepsConsistent(rows, OpenRow(account, symbol, stamp, snapshot.value.avgEntry,
                                          snapshot.value.qty.Floor, None, origin));
    }
  }

  lemma UntrackKeepsConsistent(rows: seq<Row>, account: Account, symbol: string)
    requires Consistent(rows)
    ensures Consistent(Released(rows, account, symbol))
    ensures !HasOpen(Released(rows, account, symbol), account, symbol)
  {
  }

  // ---- The program ----------------------------------------------------------------------------

  /** The table while it is being reconciled: the first `i` rows are done. */
  ghost predicate Halfway(before: seq<Row>, rows: seq<Row>, account: Account, v: View, i: nat)
    requires i <= |before|
  {
    && |before| <= |rows| && rows[|before|..] == Splits(before[..i], account, v)
    && (forall k :: 0 <= k < i ==> rows[k] == UpdatedRow(before[k], account, v))
    && forall k :: i <= k < |before| ==> rows[k] == before[k]
  }

  lemma OneMoreReconciled(before: seq<Row>, rows: seq<Row>, account: Account, v: View, i: nat)
    requires i < |before| && Halfway(before, rows, account, v, i)
    ensures var r := before[i];
            var after := rows[i := ReconciledRow(r, v)]
                         + if SplitRow(r, v).Some? then [SplitRow(r, v).value] else [];
            Halfway(before, if OpenIn(r, account) then after else rows, account, v, i + 1)
  {
    assert before[..i + 1][..i] == before[..i];
  }

  /** A recovery that has dealt with every symbol but those still to do. */
  ghost predicate RecoveredExcept(rows: seq<Row>, after: seq<Row>, account: Account,
                                  overrides: map<(Account, string), bool>, v: View, todo: set<string>) {
    && rows <= after
    && (forall i :: |rows| <= i < |after| ==>
          && after[i].symbol !in todo
          && Recoverable(rows, account, overrides, v, after[i].symbol)
          && after[i] == RecoveredRow(rows, account, v, after[i].symbol))
    && (forall i, j :: |rows| <= i < j < |after| ==> after[i].symbol != after[j].symbol)
    && (forall s :: s !in todo && Recoverable(rows, account, overrides, v, s) ==> HasOpen(after, account, s))
  }

  lemma StillOpen(rows: seq<Row>, after: seq<Row>, account: Account)
    requires rows <= after
    ensures forall s :: HasOpen(rows, account, s) ==> HasOpen(after, account, s)
  {
    forall s | HasOpen(rows, account, s) ensures HasOpen(after, account, s) {
      var i :| 0 <= i < |rows| && OpenIn(rows[i], account) && rows[i].symbol == s;
      assert OpenIn(after[i], account);
    }
  }

  /** Rows appended for other symbols do not open this one. */
  lemma NotYetOpen(rows: seq<Row>, after: seq<Row>, account: Account, symbol: string)
    requires rows <= after && forall i :: |rows| <= i < |after| ==> after[i].symbol != symbol
    ensures HasOpen(after, account, symbol) <==> HasOpen(rows, account, symbol)
  {
    StillOpen(rows, after, account);
  }

  lemma RecoverStep(rows: seq<Row>, sofar: seq<Row>, account: Account, overrides: map<(Account, string), bool>,
                    v: View, todo: set<string>, symbol: string)
    requires RecoveredExcept(rows, sofar, account, overrides, v, todo) && symbol in todo && symbol in v.held
    ensures var after := sofar + if Recoverable(sofar, account, overrides, v, symbol)
                                 then [RecoveredRow(sofar, account, v, symbol)] else [];
            RecoveredExcept(rows, after, account, overrides, v, todo - {symbol})
  {
    OpenRowsAreNoSeeds(rows, sofar, account, symbol);
    NotYetOpen(rows, sofar, account, symbol);
    assert Recoverable(sofar, account, overrides, v, symbol) <==> Recoverable(rows, account, overrides, v, symbol);
    if Recoverable(sofar, account, overrides, v, symbol) {
      var after := sofar + [RecoveredRow(sofar, account, v, symbol)];
      StillOpen(sofar, after, account);
      assert OpenIn(after[|sofar|], account);
    } else {
      assert sofar + [] == sofar;
    }
  }

  class Store {
    var rows: seq<Row>
    var overrides: map<(Account, string), bool>

    constructor ()
      ensures rows == [] && overrides == map[]
    {
      rows := [];
      overrides := map[];
    }

    method InsertBuy(account: Account, symbol: string, stamp: int, price: real, shares: int, orderId: string)
      returns (inserted: bool)
      modifies this
      ensures inserted == !HasOpen(old(rows), account, symbol)
      ensures rows == Bought(old(rows), account, symbol, stamp, price, shares, orderId)
      ensures overrides == old(overrides)
    {
      if HasOpen(rows, account, symbol) {
        return false;
      }
      rows := rows + [OpenRow(account, symbol, stamp, price, shares, Some(orderId), MlaiAuto)];
      return true;
    }

    /** Adopts a provider-held position, or says why it cannot be adopted. */
    method Track(account: Account, symbol: string, snapshot: Option<Held>, stamp: int, origin: Origin)
      returns (outcome: Tracking)
      modifies this
      ensures outcome == TrackOutcome(old(rows), account, symbol, snapshot)
      ensures rows == TrackedRows(old(rows), account, symbol, snapshot, stamp, origin)
      ensures overrides == if outcome.Tracked? || outcome.AlreadyTracked?
                           then old(overrides)[(account, symbol) := true] else old(overrides)
    {
      if snapshot.None? {
        return NoPosition;
      }
      var held := snapshot.value;
      if held.qty <= 0.0 {
        return NotPositive;
      }
      var shares := held.qty.Floor;
      if shares <= 0 {
        return BelowOneShare;
      }
      if held.avgEntry <= 0.0 {
        return NoEntryPrice;
      }
      if HasOpen(rows, account, symbol) {
        overrides := overrides[(account, symbol) := true];
        return AlreadyTracked;
      }
      rows := rows + [OpenRow(account, symbol, stamp, held.avgEntry, shares, None, origin)];
      overrides := overrides[(account, symbol) := true];
      return Tracked;
    }

    /** Releases a symbol to manual ownership; nothing is sold. */
    method Untrack(account: Account, symbol: string, snapshot: Option<Held>) returns (ok: bool)
      modifies this
      ensures ok == snapshot.Some?
      ensures rows == if ok then Released(old(rows), account, symbol) else old(rows)
      ensures overrides == if ok then old(overrides)[(account, symbol) := false] else old(overrides)
    {
      if snapshot.None? {
        return false;
      }
      var before := rows;
      for i := 0 to |before|
        invariant |rows| == |before| && overrides == old(overrides)
        invariant forall k :: 0 <= k < i ==> rows[k] == ReleasedRow(before[k], account, symbol)
        invariant forall k :: i <= k < |before| ==> rows[k] == before[k]
      {
        if OpenIn(rows[i], account) && rows[i].symbol == symbol {
          rows := rows[i := rows[i].(status := Manual, exitOrigin := None, origin := rows[i].entryOrigin)];
        }
      }
      overrides := overrides[(account, symbol) := false];
      return true;
    }

    /** Records a submitted exit order on its row; the row stays open until the broker confirms. */
    method MarkExit(id: nat, price: real, orderId: string)
      requires id < |rows|
      modifies this`rows
      ensures rows == old(rows)[id := ExitMarked(old(rows)[id], price, orderId)]
    {
      var r := rows[id];
      var pnl := PnlOf(r.entryPrice, price, r.shares);
      var marked := r.(exitDate := None, exitPrice := Some(price), pnl := Some(pnl),
                       exitOrderId := Some(orderId), exitOrigin := Some(MlaiAuto), origin := MlaiAuto);
      assert marked == ExitMarked(r, price, orderId);
      rows := rows[id := marked];
    }

    /** The sell loop over the open positions. */
    method SubmitExits(attempts: seq<ExitAttempt>)
      modifies this`rows
      ensures rows == AfterExits(old(rows), attempts)
    {
      for i := 0 to |attempts|
        invariant rows == AfterExits(old(rows), attempts[..i])
      {
        assert attempts[..i + 1][..i] == attempts[..i];
        var a := attempts[i];
        if a.id >= |rows| || rows[a.id].status != Open || !a.triggered {
          continue;
        }
        var previous := rows[a.id].exitOrderId;
        if previous.Some? && ExitOrderActive(a.orders, previous.value) {
          continue;
        }
        if a.blocked || a.answer.None? {
          continue;
        }
        MarkExit(a.id, a.price, a.answer.value);
      }
      assert attempts[..|attempts|] == attempts;
    }

    /** One open row against the snapshot: close it, split and resize it, or keep it. */
    method ReconcileRow(id: nat, v: View)
      requires id < |rows|
      modifies this`rows
      ensures var r := old(rows)[id];
              rows == old(rows)[id := ReconciledRow(r, v)]
                      + if SplitRow(r, v).Some? then [SplitRow(r, v).value] else []
    {
      var r := rows[id];
      var qty := HeldQty(v, r.symbol);
      var exit := ProviderExit(v, r);
      if qty < 1.0 {
        if exit.None? && EntryPending(v.orders, r.orderId) {
          return;
        }
        rows := rows[id := ClosedRow(r, v)];
        return;
      }
      if qty + EPSILON < r.shares as real {
        var adjusted := qty.Floor;
        var sold := Max(r.shares - adjusted, 0);
        if sold > 0 && exit.Some? {
          var origin := Combine(r.entryOrigin, exit.value.origin);
          var split := r.(shares := sold, costBasis := CostOf(r.entryPrice, sold), status := Closed,
                          exitDate := Some(exit.value.date), exitPrice := Some(exit.value.price),
                          pnl := Some(PnlOf(r.entryPrice, exit.value.price, sold)),
                          exitOrderId := exit.value.orderId, exitOrigin := Some(exit.value.origin),
                          origin := origin);
          assert Some(split) == SplitRow(r, v);
          rows := rows + [split];
        }
        rows := rows[id := Resized(r, adjusted)];
        return;
      }
      if qty - EPSILON > r.shares as real {
        rows := rows[id := Resized(r, qty.Floor)];
      }
    }

    /** Settles every open row of the account against the broker's snapshot. */
    method Reconcile(account: Account, v: View)
      modifies this`rows
      ensures rows == Reconciled(old(rows), account, v)
    {
      var before := rows;
      for i := 0 to |before|
        invariant Halfway(before, rows, account, v, i)
      {
        OneMoreReconciled(before, rows, account, v, i);
        if OpenIn(before[i], account) {
          ReconcileRow(i, v);
        }
      }
      assert before[..|before|] == before;
    }

    /** Re-opens one symbol if the broker still holds what was closed locally. */
    method RecoverSymbol(account: Account, v: View, symbol: string)
      requires symbol in v.held
      modifies this`rows
      ensures rows == old(rows) + if Recoverable(old(rows), account, overrides, v, symbol)
                                  then [RecoveredRow(old(rows), account, v, symbol)] else []
    {
      var held := v.held[symbol];
      if held.qty <= 0.0 || HasOpen(rows, account, symbol) || Untracked(overrides, account, symbol) {
        return;
      }
      var seed := LatestSeed(rows, account, symbol);
      if seed.None? {
        return;
      }
      var shares := held.qty.Floor;
      if shares <= 0 {
        return;
      }
      var price := if held.avgEntry > 0.0 then held.avgEntry else seed.value.entryPrice;
      if price <= 0.0 {
        return;
      }
      rows := rows + [OpenRow(account, symbol, seed.value.entryStamp, price, shares, seed.value.orderId,
                              seed.value.entryOrigin)];
    }

    /** Re-opens what the broker still holds of positions that were closed locally, in any order. */
    method Recover(account: Account, v: View)
      modifies this`rows
      ensures IsRecovery(old(rows), rows, account, overrides, v)
    {
      var todo := v.held.Keys;
      while todo != {}
        invariant todo <= v.held.Keys
        invariant RecoveredExcept(old(rows), rows, account, overrides, v, todo)
        decreases todo
      {
        var symbol :| symbol in todo;
        RecoverStep(old(rows), rows, account, overrides, v, todo, symbol);
        RecoverSymbol(account, v, symbol);
        todo := todo - {symbol};
      }
    }
  }
}
