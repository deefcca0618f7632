/**
 The FIFO lot book behind wash-sale reconciliation: one queue of lots per symbol, split across
 sells.  The book is compared with a ledger that knows nothing of lots and handles one share at a
 time.
 */
module LotBook {
  import opened Common

  type Units = n: int | 0 < n witness 1
  type Price = p: real | 0.0 < p witness 1.0

  datatype Side = Buy | Sell | Other

  /** `time` is in milliseconds since the epoch, None when the provider text does not parse. */
  datatype Fill = Fill(symbol: string, side: Side, qty: Units, price: Price,
                       time: Option<int>, paper: bool, accountRef: string)

  datatype Lot = Lot(qty: Units, price: Price)

  /** What one sell fill yields: its accumulated loss and the shares no lot could cover. */
  datatype Outcome = Outcome(fill: Fill, loss: real, unmatched: nat)

  datatype Book = Book(lots: map<string, seq<Lot>>, outcomes: seq<Outcome>)

  datatype Matching = Matching(lots: seq<Lot>, loss: real, unmatched: nat)

  const EMPTY_BOOK := Book(map[], [])

  function LossPerShare(bought: real, sold: real): real {
    if sold < bought then bought - sold else 0.0
  }

  /** The loss on equal shares, added up share by share. */
  function LossOf(bought: real, sold: real, shares: nat): real {
    if shares == 0 then 0.0 else LossOf(bought, sold, shares - 1) + LossPerShare(bought, sold)
  }

  lemma {:induction false} LossOfIsProduct(bought: real, sold: real, shares: nat)
    ensures LossOf(bought, sold, shares) == if sold < bought then (bought - sold) * shares as real else 0.0
  {
    if shares > 0 {
      LossOfIsProduct(bought, sold, shares - 1);
      assert (bought - sold) * shares as real == (bought - sold) * (shares - 1) as real + (bought - sold);
    }
  }

  function AfterTaking(lots: seq<Lot>, taken: nat): seq<Lot>
    requires lots != [] && taken <= lots[0].qty
  {
    if taken == lots[0].qty then lots[1..] else [Lot(lots[0].qty - taken, lots[0].price)] + lots[1..]
  }

  /** One pass of the matching loop per step: take what the front lot can give. */
  function Match(lots: seq<Lot>, remaining: nat, price: Price): Matching
    decreases remaining
  {
    if remaining == 0 then Matching(lots, 0.0, 0)
    else if lots == [] then Matching([], 0.0, remaining)
    else
      var taken := Min(remaining, lots[0].qty);
      var rest := Match(AfterTaking(lots, taken), remaining - taken, price);
      rest.(loss := LossOf(lots[0].price, price, taken) + rest.loss)
  }

  function LotsOf(b: Book, symbol: string): seq<Lot> {
    if symbol in b.lots then b.lots[symbol] else []
  }

  function Step(b: Book, f: Fill): Book {
    match f.side
    case Buy => b.(lots := b.lots[f.symbol := LotsOf(b, f.symbol) + [Lot(f.qty, f.price)]])
    case Sell =>
      var m := Match(LotsOf(b, f.symbol), f.qty, f.price);
      Book(b.lots[f.symbol := m.lots], b.outcomes + [Outcome(f, m.loss, m.unmatched)])
    case Other => b
  }

  /** The book after a whole history, oldest fill first. */
  function Run(fills: seq<Fill>): Book {
    if fills == [] then EMPTY_BOOK else Step(Run(fills[..|fills| - 1]), fills[|fills| - 1])
  }

  /** A number of shares at one price. */
  function Repeat(price: real, n: nat): (shares: seq<real>)
    ensures |shares| == n
  {
    if n == 0 then [] else Repeat(price, n - 1) + [price]
  }

  lemma {:induction false} RepeatSplit(price: real, m: nat, n: nat)
    ensures Repeat(price, m + n) == Repeat(price, m) + Repeat(price, n)
  {
    if n > 0 {
      RepeatSplit(price, m, n - 1);
      ConcatIsAssociative(Repeat(price, m), Repeat(price, n - 1), [price]);
    }
  }

  // ---- The share-by-share specification -------------------------------------------------------

  /**
   Every share ever bought, in order, of which the first `consumed` have been matched.  A sold share
   consumes the oldest unconsumed one, or is unmatched.
   */
  datatype Ledger = Ledger(bought: seq<real>, consumed: nat, sold: nat, unmatched: nat,
                           outcomes: seq<Outcome>)
  {
    predicate Valid() {
      consumed <= |bought|
    }

    function Open(): seq<real>
      requires Valid()
    {
      bought[consumed..]
    }
  }

  const EMPTY_LEDGER := Ledger([], 0, 0, 0, [])

  function BuyOneShare(l: Ledger, price: real): Ledger {
    l.(bought := l.bought + [price])
  }

  function BuyShares(l: Ledger, n: nat, price: real): Ledger {
    if n == 0 then l else BuyOneShare(BuyShares(l, n - 1, price), price)
  }

  lemma {:induction false} BuySharesAppends(l: Ledger, n: nat, price: real)
    ensures BuyShares(l, n, price) == l.(bought := l.bought + Repeat(price, n))
  {
    if n > 0 {
      BuySharesAppends(l, n - 1, price);
      ConcatIsAssociative(l.bought, Repeat(price, n - 1), [price]);
    }
  }

  /** A sell in progress: the ledger, and the loss and the misses of the shares sold so far. */
  datatype Sale = Sale(ledger: Ledger, loss: real, misses: nat)

  function SellOneShare(s: Sale, price: real): Sale {
    var l := s.ledger;
    if l.consumed < |l.bought| then
      Sale(l.(consumed := l.consumed + 1, sold := l.sold + 1),
           s.loss + LossPerShare(l.bought[l.consumed], price), s.misses)
    else
      Sale(l.(sold := l.sold + 1, unmatched := l.unmatched + 1), s.loss, s.misses + 1)
  }

  function SellShares(l: Ledger, n: nat, price: real): (s: Sale)
    requires l.Valid()
    ensures s.ledger.Valid()
  {
    if n == 0 then Sale(l, 0.0, 0) else SellOneShare(SellShares(l, n - 1, price), price)
  }

  /** The ledger of one symbol; fills of other symbols are not looked at. */
  function LedgerOf(fills: seq<Fill>, symbol: string): (l: Ledger)
    ensures l.Valid()
  {
    if fills == [] then EMPTY_LEDGER
    else
      var before := LedgerOf(fills[..|fills| - 1], symbol);
      var f := fills[|fills| - 1];
      if f.symbol != symbol then before
      else match f.side
        case Buy => BuySharesAppends(before, f.qty, f.price); BuyShares(before, f.qty, f.price)
        case Sell =>
          var sale := SellShares(before, f.qty, f.price);
          sale.ledger.(outcomes := sale.ledger.outcomes + [Outcome(f, sale.loss, sale.misses)])
        case Other => before
  }

  // ---- Refinement -----------------------------------------------------------------------------

  /** The lots of a queue written out share by share. */
  function Expand(lots: seq<Lot>): seq<real> {
    if lots == [] then [] else Repeat(lots[0].price, lots[0].qty) + Expand(lots[1..])
  }

  function TotalLoss(shares: seq<real>, price: real): real {
    if shares == [] then 0.0
    else TotalLoss(shares[..|shares| - 1], price) + LossPerShare(shares[|shares| - 1], price)
  }

  lemma {:induction false} ExpandAppend(lots: seq<Lot>, lot: Lot)
    ensures Expand(lots + [lot]) == Expand(lots) + Repeat(lot.price, lot.qty)
  {
    var all := lots + [lot];
    if lots == [] {
      assert Expand(all) == Repeat(lot.price, lot.qty) + Expand([]);
    } else {
      assert all[0] == lots[0] && all[1..] == lots[1..] + [lot];
      ExpandAppend(lots[1..], lot);
      ConcatIsAssociative(Repeat(lots[0].price, lots[0].qty), Expand(lots[1..]), Repeat(lot.price, lot.qty));
    }
  }

  lemma {:induction false} TotalLossConcat(a: seq<real>, b: seq<real>, price: real)
    ensures TotalLoss(a + b, price) == TotalLoss(a, price) + TotalLoss(b, price)
  {
    if b == [] {
      assert a + b == a;
    } else {
      assert (a + b)[..|a + b| - 1] == a + b[..|b| - 1];
      TotalLossConcat(a, b[..|b| - 1], price);
    }
  }

  lemma {:induction false} TotalLossUniform(n: nat, share: real, price: real)
    ensures TotalLoss(Repeat(share, n), price) == LossOf(share, price, n)
  {
    if n > 0 {
      assert Repeat(share, n)[..n - 1] == Repeat(share, n - 1);
      TotalLossUniform(n - 1, share, price);
    }
  }

  lemma ExpandFront(lot: Lot, rest: seq<Lot>)
    ensures Expand([lot] + rest) == Repeat(lot.price, lot.qty) + Expand(rest)
  {
    assert ([lot] + rest)[1..] == rest;
  }

  lemma TakingSplitsExpansion(lots: seq<Lot>, taken: nat)
    requires lots != [] && taken <= lots[0].qty
    ensures Expand(lots) == Repeat(lots[0].price, taken) + Expand(AfterTaking(lots, taken))
  {
    var price, left := lots[0].price, lots[0].qty - taken;
    if left > 0 {
      ExpandFront(Lot(left, price), lots[1..]);
      RepeatSplit(price, taken, left);
      ConcatIsAssociative(Repeat(price, taken), Repeat(price, left), Expand(lots[1..]));
    }
  }

  /** A matching took these shares off the front, with exactly their losses, and missed the others. */
  ghost predicate UsesFront(lots: seq<Lot>, remaining: nat, price: real, m: Matching, used: seq<real>) {
    && Expand(lots) == used + Expand(m.lots)
    && m.loss == TotalLoss(used, price)
    && |used| + m.unmatched == remaining
    && (m.unmatched > 0 ==> m.lots == [])
  }

  lemma FrontLotUsed(lots: seq<Lot>, taken: nat, remaining: nat, price: real, m: Matching, used: seq<real>)
    requires lots != [] && taken <= lots[0].qty && taken <= remaining
    requires UsesFront(AfterTaking(lots, taken), remaining - taken, price, m, used)
    ensures UsesFront(lots, remaining, price, m.(loss := LossOf(lots[0].price, price, taken) + m.loss),
                      Repeat(lots[0].price, taken) + used)
  {
    var head := Repeat(lots[0].price, taken);
    TakingSplitsExpansion(lots, taken);
    TotalLossConcat(head, used, price);
    TotalLossUniform(taken, lots[0].price, price);
    ConcatIsAssociative(head, used, Expand(m.lots));
  }

  /** Matching lot by lot uses up the oldest shares and leaves the others in their order. */
  lemma {:induction false} MatchUsesFront(lots: seq<Lot>, remaining: nat, price: Price) returns (used: seq<real>)
    ensures UsesFront(lots, remaining, price, Match(lots, remaining, price), used)
    decreases remaining
  {
    used := [];
    if remaining > 0 && lots != [] {
      var taken := Min(remaining, lots[0].qty);
      used := MatchUsesFront(AfterTaking(lots, taken), remaining - taken, price);
      var rest := Match(AfterTaking(lots, taken), remaining - taken, price);
      FrontLotUsed(lots, taken, remaining, price, rest, used);
      used := Repeat(lots[0].price, taken) + used;
    }
  }

  /** Matching lot by lot consumes exactly the oldest shares and adds up exactly their losses. */
  lemma MatchConsumesOldestShares(lots: seq<Lot>, remaining: nat, price: Price)
    ensures var m := Match(lots, remaining, price);
            var shares := Expand(lots);
            var k := Min(remaining, |shares|);
            && Expand(m.lots) == shares[k..]
            && m.loss == TotalLoss(shares[..k], price)
            && m.unmatched == remaining - k
  {
    var used := MatchUsesFront(lots, remaining, price);
    assert Expand(lots)[..|used|] == used;
  }

  /** `s` is `l` after selling `n` shares, of which those in `used` were matched. */
  ghost predicate Sold(l: Ledger, n: nat, price: real, s: Sale, used: seq<real>)
    requires l.Valid()
  {
    && |used| + s.misses == n
    && l.consumed + |used| <= |l.bought|
    && used == l.bought[l.consumed..l.consumed + |used|]
    && (s.misses > 0 ==> l.consumed + |used| == |l.bought|)
    && s.loss == TotalLoss(used, price)
    && s.ledger == l.(consumed := l.consumed + |used|, sold := l.sold + n, unmatched := l.unmatched + s.misses)
  }

  lemma SellOneMore(l: Ledger, n: nat, price: real, s: Sale, used: seq<real>) returns (used': seq<real>)
    requires l.Valid() && Sold(l, n, price, s, used)
    ensures Sold(l, n + 1, price, SellOneShare(s, price), used')
  {
    used' := used;
    if s.ledger.consumed < |l.bought| {
      used' := used + [l.bought[s.ledger.consumed]];
      assert used'[..|used|] == used;
    }
  }

  /** Selling share by share uses up the oldest open shares and keeps every other count. */
  lemma {:induction false} SellSharesUsesFront(l: Ledger, n: nat, price: real) returns (used: seq<real>)
    requires l.Valid()
    ensures Sold(l, n, price, SellShares(l, n, price), used)
  {
    if n == 0 {
      used := [];
    } else {
      used := SellSharesUsesFront(l, n - 1, price);
      used := SellOneMore(l, n - 1, price, SellShares(l, n - 1, price), used);
    }
  }

  function OutcomesOf(outcomes: seq<Outcome>, symbol: string): seq<Outcome> {
    if outcomes == [] then []
    else
      var last := outcomes[|outcomes| - 1];
      OutcomesOf(outcomes[..|outcomes| - 1], symbol) + if last.fill.symbol == symbol then [last] else []
  }

  lemma OutcomesOfAppend(outcomes: seq<Outcome>, o: Outcome, symbol: string)
    ensures OutcomesOf(outcomes + [o], symbol)
         == OutcomesOf(outcomes, symbol) + if o.fill.symbol == symbol then [o] else []
  {
    assert (outcomes + [o])[..|outcomes|] == outcomes;
  }

  lemma RunAppend(fills: seq<Fill>, f: Fill)
    ensures Run(fills + [f]) == Step(Run(fills), f)
  {
    assert (fills + [f])[..|fills|] == fills;
  }

  ghost predicate Refines(lots: seq<Lot>, outcomes: seq<Outcome>, l: Ledger)
    requires l.Valid()
  {
    Expand(lots) == l.Open() && outcomes == l.outcomes
  }

  /** Two ways of taking the front off the same queue agree if neither stops early. */
  lemma SplitsAgree(front: seq<real>, rest: seq<real>, front': seq<real>, rest': seq<real>)
    requires front + rest == front' + rest'
    requires |front| < |front'| ==> rest == []
    requires |front'| < |front| ==> rest' == []
    ensures front == front' && rest == rest'
  {
    assert |front + rest| == |front' + rest'|;
    assert front == (front + rest)[..|front|];
    assert front' == (front' + rest')[..|front'|];
    assert rest == (front + rest)[|front|..];
  }

  lemma BuyRefines(lots: seq<Lot>, outcomes: seq<Outcome>, l: Ledger, f: Fill)
    requires l.Valid() && Refines(lots, outcomes, l)
    ensures BuyShares(l, f.qty, f.price).Valid()
    ensures Refines(lots + [Lot(f.qty, f.price)], outcomes, BuyShares(l, f.qty, f.price))
  {
    ExpandAppend(lots, Lot(f.qty, f.price));
    BuySharesAppends(l, f.qty, f.price);
  }

  lemma SellRefines(lots: seq<Lot>, outcomes: seq<Outcome>, l: Ledger, f: Fill)
    requires l.Valid() && Refines(lots, outcomes, l)
    ensures var m := Match(lots, f.qty, f.price);
            var sale := SellShares(l, f.qty, f.price);
            && sale.loss == m.loss && sale.misses == m.unmatched
            && Refines(m.lots, outcomes, sale.ledger)
  {
    var fromLots := MatchUsesFront(lots, f.qty, f.price);
    var fromLedger := SellSharesUsesFront(l, f.qty, f.price);
    SplitsAgree(fromLots, Expand(Match(lots, f.qty, f.price).lots),
                fromLedger, SellShares(l, f.qty, f.price).ledger.Open());
  }

  /**
   The whole lot queue refines the ledger: for every history and symbol the open lots, written out,
   are the unconsumed shares, and every sell fill has the loss and misses of its own shares.
   */
  lemma {:induction false} LotsRefineLedger(fills: seq<Fill>, symbol: string)
    ensures Refines(LotsOf(Run(fills), symbol), OutcomesOf(Run(fills).outcomes, symbol), LedgerOf(fills, symbol))
  {
    if fills != [] {
      var before, f := fills[..|fills| - 1], fills[|fills| - 1];
      LotsRefineLedger(before, symbol);
      var b, l := Run(before), LedgerOf(before, symbol);
      if f.side == Sell {
        var m := Match(LotsOf(b, f.symbol), f.qty, f.price);
        OutcomesOfAppend(b.outcomes, Outcome(f, m.loss, m.unmatched), symbol);
      }
      if f.symbol == symbol {
        match f.side
        case Buy => BuyRefines(LotsOf(b, symbol), OutcomesOf(b.outcomes, symbol), l, f);
        case Sell => SellRefines(LotsOf(b, symbol), OutcomesOf(b.outcomes, symbol), l, f);
        case Other =>
      }
    }
  }

  // ---- Conservation ---------------------------------------------------------------------------

  /** Shares on one side of a symbol's history. */
  function Volume(fills: seq<Fill>, symbol: string, side: Side): nat {
    if fills == [] then 0
    else
      var f := fills[|fills| - 1];
      Volume(fills[..|fills| - 1], symbol, side) + (if f.symbol == symbol && f.side == side then f.qty else 0)
  }

  function OpenShares(lots: seq<Lot>): nat {
    if lots == [] then 0 else lots[0].qty + OpenShares(lots[1..])
  }

  function UnmatchedShares(outcomes: seq<Outcome>): nat {
    if outcomes == [] then 0
    else UnmatchedShares(outcomes[..|outcomes| - 1]) + outcomes[|outcomes| - 1].unmatched
  }

  lemma {:induction false} OpenSharesIsExpandedLength(lots: seq<Lot>)
    ensures OpenShares(lots) == |Expand(lots)|
  {
    if lots != [] {
      OpenSharesIsExpandedLength(lots[1..]);
    }
  }

  lemma {:induction false} LedgerTotals(fills: seq<Fill>, symbol: string)
    ensures var l := LedgerOf(fills, symbol);
            && |l.bought| == Volume(fills, symbol, Buy)
            && l.sold == Volume(fills, symbol, Sell) == l.consumed + l.unmatched
            && l.unmatched == UnmatchedShares(l.outcomes)
  {
    if fills != [] {
      var before, f := fills[..|fills| - 1], fills[|fills| - 1];
      LedgerTotals(before, symbol);
      var l := LedgerOf(before, symbol);
      BuySharesAppends(l, f.qty, f.price);
      var used := SellSharesUsesFront(l, f.qty, f.price);
    }
  }

  /**
   For every history and symbol: bought = open + matched and sold = matched + unmatched, where the
   open shares are read off the lots and the unmatched ones off the sell outcomes.
   */
  lemma SharesAreConserved(fills: seq<Fill>, symbol: string) returns (matched: nat)
    ensures matched == LedgerOf(fills, symbol).consumed
    ensures Volume(fills, symbol, Buy) == OpenShares(LotsOf(Run(fills), symbol)) + matched
    ensures Volume(fills, symbol, Sell) == matched + UnmatchedShares(OutcomesOf(Run(fills).outcomes, symbol))
  {
    LotsRefineLedger(fills, symbol);
    LedgerTotals(fills, symbol);
    OpenSharesIsExpandedLength(LotsOf(Run(fills), symbol));
    matched := LedgerOf(fills, symbol).consumed;
  }

  // ---- Independence of the interleaving -------------------------------------------------------

  function FillsOf(fills: seq<Fill>, symbol: string): seq<Fill> {
    if fills == [] then []
    else
      var last := fills[|fills| - 1];
      FillsOf(fills[..|fills| - 1], symbol) + if last.symbol == symbol then [last] else []
  }

  /** Books that agree on a symbol still agree after a fill of it, and a fill of another leaves it alone. */
  lemma StepSeesOneSymbol(a: Book, b: Book, f: Fill, symbol: string)
    requires LotsOf(a, symbol) == LotsOf(b, symbol)
    requires OutcomesOf(a.outcomes, symbol) == OutcomesOf(b.outcomes, symbol)
    ensures var b' := if f.symbol == symbol then Step(b, f) else b;
            && LotsOf(Step(a, f), symbol) == LotsOf(b', symbol)
            && OutcomesOf(Step(a, f).outcomes, symbol) == OutcomesOf(b'.outcomes, symbol)
  {
    if f.side == Sell {
      var ma, mb := Match(LotsOf(a, f.symbol), f.qty, f.price), Match(LotsOf(b, f.symbol), f.qty, f.price);
      OutcomesOfAppend(a.outcomes, Outcome(f, ma.loss, ma.unmatched), symbol);
      OutcomesOfAppend(b.outcomes, Outcome(f, mb.loss, mb.unmatched), symbol);
    }
  }

  lemma {:induction false} RunDependsOnOwnFillsOnly(fills: seq<Fill>, symbol: string)
    ensures LotsOf(Run(fills), symbol) == LotsOf(Run(FillsOf(fills, symbol)), symbol)
    ensures OutcomesOf(Run(fills).outcomes, symbol) == OutcomesOf(Run(FillsOf(fills, symbol)).outcomes, symbol)
  {
    if fills != [] {
      var before, f := fills[..|fills| - 1], fills[|fills| - 1];
      RunDependsOnOwnFillsOnly(before, symbol);
      var own := FillsOf(before, symbol);
      StepSeesOneSymbol(Run(before), Run(own), f, symbol);
      RunAppend(own, f);
      assert FillsOf(fills, symbol) == if f.symbol == symbol then own + [f] else own;
    }
  }

  /** Two histories that agree on one symbol's fills agree on that symbol, however the rest interleaves. */
  lemma InterleavingIsIrrelevant(a: seq<Fill>, b: seq<Fill>, symbol: string)
    requires FillsOf(a, symbol) == FillsOf(b, symbol)
    ensures LotsOf(Run(a), symbol) == LotsOf(Run(b), symbol)
    ensures OutcomesOf(Run(a).outcomes, symbol) == OutcomesOf(Run(b).outcomes, symbol)
  {
    RunDependsOnOwnFillsOnly(a, symbol);
    RunDependsOnOwnFillsOnly(b, symbol);
  }

  // ---- The program ----------------------------------------------------------------------------

  /** The matching still to come, with the loss so far, completes to the matching asked for. */
  ghost predicate Continues(goal: Matching, lossSoFar: real, rest: Matching) {
    goal == rest.(loss := lossSoFar + rest.loss)
  }

  /** Adds the loss of `shares` equal shares, as one product. */
  method AddLoss(loss: real, bought: real, sold: real, shares: nat) returns (total: real)
    ensures total == loss + LossOf(bought, sold, shares)
  {
    LossOfIsProduct(bought, sold, shares);
    total := if sold < bought then loss + (bought - sold) * shares as real else loss;
  }

  /** The matching loop: splits or pops the front lot until the sell or the queue is used up. */
  method MatchQueue(queue: seq<Lot>, qty: Units, price: Price)
    returns (left: seq<Lot>, loss: real, unmatched: nat)
    ensures Matching(left, loss, unmatched) == Match(queue, qty, price)
  {
    var remaining: nat := qty;
    left, loss, unmatched := queue, 0.0, 0;
    while remaining > 0
      invariant unmatched == 0
      invariant Continues(Match(queue, qty, price), loss, Match(left, remaining, price))
    {
      if left == [] {
        unmatched := remaining;
        break;
      }
      ghost var before := left;
      var front := left[0];
      var matched := Min(remaining, front.qty);
      loss := AddLoss(loss, front.price, price, matched);
      remaining := remaining - matched;
      if front.qty - matched == 0 {
        left := left[1..];
      } else {
        left := left[0 := Lot(front.qty - matched, front.price)];
      }
      assert left == AfterTaking(before, matched);
    }
  }

  /** The per-symbol queues of one reconciliation pass. */
  class LotQueues {
    var lots: map<string, seq<Lot>>

    constructor ()
      ensures lots == map[]
    {
      lots := map[];
    }

    method PushBack(fill: Fill)
      modifies this
      ensures lots == old(lots)[fill.symbol := LotsOf(Book(old(lots), []), fill.symbol) + [Lot(fill.qty, fill.price)]]
    {
      var queue := if fill.symbol in lots then lots[fill.symbol] else [];
      lots := lots[fill.symbol := queue + [Lot(fill.qty, fill.price)]];
    }

    /** Matches one sell fill against its symbol's queue. */
    method MatchSell(fill: Fill) returns (loss: real, unmatched: nat)
      modifies this
      ensures var m := Match(LotsOf(Book(old(lots), []), fill.symbol), fill.qty, fill.price);
              && lots == old(lots)[fill.symbol := m.lots]
              && loss == m.loss
              && unmatched == m.unmatched
    {
      var queue := if fill.symbol in lots then lots[fill.symbol] else [];
      queue, loss, unmatched := MatchQueue(queue, fill.qty, fill.price);
      lots := lots[fill.symbol := queue];
    }
  }
}
