/** The order-book aggregator: registered exchanges, the two aggregate sides rebuilt from
    them, and the liquidity and cost queries answered from those sides. */
module Aggregator {
  import opened Entries
  import opened Exceptions
  import opened BookSide

  /** A registered exchange: its name and the bid and ask books its last successful fetch
      stored, each in multimap order. */
  datatype Exchange = Exchange(name: string, bids: seq<Entry>, asks: seq<Entry>)

  /** What one exchange's `fetchOrderBook` call did: replaced both books, or threw. */
  datatype FetchOutcome = Fetched(newBids: seq<Entry>, newAsks: seq<Entry>) | FetchFailed(error: string)

  datatype Option<T> = None | Some(value: T)

  /** The `(buyCost, sellCost)` pair `calculateCosts` returns. */
  datatype CostPair = CostPair(buyCost: real, sellCost: real)

  /** A cost pair, or the exception `calculateCosts` throws instead. */
  datatype CostResult = Costs(costs: CostPair) | Insufficient(error: InsufficientLiquidityException)

  const BuyShortMessage: string := "Insufficient liquidity for buy order"
  const SellShortMessage: string := "Insufficient liquidity for sell order"

  /** One side of an exchange's book. */
  function SideOf(x: Exchange, bids: bool): seq<Entry>
  {
    if bids then x.bids else x.asks
  }

  /** Every exchange's entries on one side, exchange by exchange in registration order and,
      within an exchange, in its own book order: the order `mergeOrderBooks` inserts them. */
  function AllEntries(xs: seq<Exchange>, bids: bool): seq<Entry>
  {
    if xs == [] then [] else AllEntries(xs[..|xs| - 1], bids) + SideOf(xs[|xs| - 1], bids)
  }

  /** The number of entries the exchanges hold on one side. */
  function EntryCount(xs: seq<Exchange>, bids: bool): nat
  {
    if xs == [] then 0 else EntryCount(xs[..|xs| - 1], bids) + |SideOf(xs[|xs| - 1], bids)|
  }

  /** The liquidity the exchanges hold on one side, exchange by exchange. */
  function ExchangeLiquidity(xs: seq<Exchange>, bids: bool): real
  {
    if xs == [] then 0.0
    else ExchangeLiquidity(xs[..|xs| - 1], bids) + SumQuantities(SideOf(xs[|xs| - 1], bids))
  }

  /** The aggregate side that clearing and re-inserting every exchange's entries produces. */
  function Merged(xs: seq<Exchange>, bids: bool): seq<Entry>
  {
    InsertAll([], AllEntries(xs, bids))
  }

  /** The index of the first fetch that throws, or the number of fetches if none does. */
  function FailIndex(fetched: seq<FetchOutcome>): (k: nat)
    ensures k <= |fetched|
    ensures forall j :: 0 <= j < k ==> fetched[j].Fetched?
    ensures k < |fetched| ==> fetched[k].FetchFailed?
  {
    if fetched == [] || fetched[0].FetchFailed? then 0 else 1 + FailIndex(fetched[1..])
  }

  /** The error that aborts a refresh, if any fetch throws. */
  function FirstError(fetched: seq<FetchOutcome>): Option<string>
  {
    var k := FailIndex(fetched);
    if k < |fetched| then Some(fetched[k].error) else None
  }

  /** An exchange after its fetch: a successful fetch replaces both books. A failed fetch is
      taken to leave them as they were; the adapters can also throw after clearing them, which
      no aggregate ever sees, because a merge follows only a cycle with no failed fetch. */
  function AfterFetch(x: Exchange, f: FetchOutcome): Exchange
  {
    match f
    case Fetched(b, a) => x.(bids := b, asks := a)
    case FetchFailed(_) => x
  }

  /** The exchanges after `fetchAllOrderBooks`: fetched in order until the first failure;
      the failing exchange and every later one keep their books. */
  function Refreshed(xs: seq<Exchange>, fetched: seq<FetchOutcome>): (r: seq<Exchange>)
    requires |fetched| == |xs|
    ensures |r| == |xs|
  {
    seq(|xs|, j requires 0 <= j < |xs| =>
      if j < FailIndex(fetched) then AfterFetch(xs[j], fetched[j]) else xs[j])
  }

  /** What `calculateCosts` returns or throws for the given aggregate sides: the buy side is
      checked first, then the sell side; otherwise the asks are walked cheapest first and the
      bids dearest first. */
  function CostsFor(asks: seq<Entry>, bids: seq<Entry>, quantity: real): CostResult
  {
    var buyLiquidity := SumQuantities(asks);
    var sellLiquidity := SumQuantities(bids);
    if quantity > buyLiquidity then
      Insufficient(InsufficientLiquidityException(BuyShortMessage, quantity, buyLiquidity))
    else if quantity > sellLiquidity then
      Insufficient(InsufficientLiquidityException(SellShortMessage, quantity, sellLiquidity))
    else
      Costs(CostPair(Walk(asks, quantity).cost, Walk(Reverse(bids), quantity).cost))
  }

  /** The buy loop of `calculateCosts`: walks the asks from the lowest price up, filling
      `min(remaining, quantity)` at each level until nothing remains; the total paid is the
      cost of the greedy walk. */
  method BuyCost(asks: seq<Entry>, quantity: real) returns (buyCost: real)
    ensures buyCost == Walk(asks, quantity).cost
  {
    buyCost := 0.0;
    var remainingQuantity := quantity;
    var i := 0;
    assert asks[0..] == asks;
    while i < |asks|
      invariant 0 <= i <= |asks|
      invariant buyCost + Walk(asks[i..], remainingQuantity).cost == Walk(asks, quantity).cost
    {
      var entry := asks[i];
      if remainingQuantity <= 0.0 {
        break;
      }
      var fillQuantity := Min(remainingQuantity, entry.quantity);
      ghost var costBefore, remainingBefore := buyCost, remainingQuantity;
      buyCost := buyCost + fillQuantity * entry.price;
      remainingQuantity := remainingQuantity - fillQuantity;
      WalkAccumulates(asks, i, entry, remainingBefore, costBefore, Walk(asks, quantity).cost,
        fillQuantity, buyCost, remainingQuantity);
      i := i + 1;
    }
    assert i == |asks| ==> asks[i..] == [];
  }

  /** The sell loop of `calculateCosts`: walks the bids from the highest price down (a reverse
      iteration of the multimap); the total received is the cost of the greedy walk over the
      reversed side. */
  method SellProceeds(bids: seq<Entry>, quantity: real) returns (sellCost: real)
    ensures sellCost == Walk(Reverse(bids), quantity).cost
  {
    sellCost := 0.0;
    var remainingQuantity := quantity;
    var j := |bids|;
    assert bids[..j] == bids;
    while j > 0
      invariant 0 <= j <= |bids|
      invariant sellCost + Walk(Reverse(bids[..j]), remainingQuantity).cost
             == Walk(Reverse(bids), quantity).cost
    {
      if remainingQuantity <= 0.0 {
        break;
      }
      var entry := bids[j - 1];
      var fillQuantity := Min(remainingQuantity, entry.quantity);
      ghost var costBefore, remainingBefore := sellCost, remainingQuantity;
      sellCost := sellCost + fillQuantity * entry.price;
      remainingQuantity := remainingQuantity - fillQuantity;
      ReverseWalkAccumulates(bids, j, entry, remainingBefore, costBefore,
        Walk(Reverse(bids), quantity).cost, fillQuantity, sellCost, remainingQuantity);
      j := j - 1;
    }
    assert j == 0 ==> Reverse(bids[..j]) == [];
  }

  class AggregatedOrderBook {
    var exchanges: seq<Exchange>
    var aggregatedBids: seq<Entry>
    var aggregatedAsks: seq<Entry>

    /** Both aggregate sides are in multimap order. */
    ghost predicate Valid()
      reads this
    {
      Sorted(aggregatedBids) && Sorted(aggregatedAsks)
    }

    /** A new aggregator has no exchanges and empty sides. */
    constructor ()
      ensures Valid()
      ensures exchanges == [] && aggregatedBids == [] && aggregatedAsks == []
    {
      exchanges := [];
      aggregatedBids := [];
      aggregatedAsks := [];
    }

    /** `addExchange`: appends to the registration list, duplicates included. */
    method AddExchange(x: Exchange)
      requires Valid()
      modifies this
      ensures Valid()
      ensures exchanges == old(exchanges) + [x]
      ensures aggregatedBids == old(aggregatedBids) && aggregatedAsks == old(aggregatedAsks)
    {
      exchanges := exchanges + [x];
    }

    /** `fetchAllOrderBooks`: fetches every exchange in order, then merges. A fetch that
        throws aborts the cycle: earlier exchanges keep their new books, nothing is merged,
        and its error is returned. */
    method FetchAllOrderBooks(fetched: seq<FetchOutcome>) returns (error: Option<string>)
      requires Valid()
      requires |fetched| == |exchanges|
      modifies this
      ensures Valid()
      ensures exchanges == Refreshed(old(exchanges), fetched)
      ensures error == FirstError(fetched)
      ensures error.None? ==>
        aggregatedBids == Merged(exchanges, true) && aggregatedAsks == Merged(exchanges, false)
      ensures error.Some? ==>
        aggregatedBids == old(aggregatedBids) && aggregatedAsks == old(aggregatedAsks)
    {
      ghost var before := exchanges;
      var i := 0;
      while i < |exchanges|
        invariant 0 <= i <= |exchanges| == |before|
        invariant forall j :: 0 <= j < i ==> fetched[j].Fetched?
        invariant forall j :: 0 <= j < |before| ==>
          exchanges[j] == if j < i then AfterFetch(before[j], fetched[j]) else before[j]
        invariant aggregatedBids == old(aggregatedBids) && aggregatedAsks == old(aggregatedAsks)
      {
        match fetched[i]
        case FetchFailed(e) =>
          FailIndexAt(fetched, i);
          assert exchanges == Refreshed(before, fetched);
          return Some(e);
        case Fetched(b, a) =>
          exchanges := exchanges[i := exchanges[i].(bids := b, asks := a)];
        i := i + 1;
      }
      FailIndexAt(fetched, i);
      assert exchanges == Refreshed(before, fetched);
      MergeOrderBooks();
      error := None;
    }

    /** `mergeOrderBooks`: clears both sides, then inserts every bid and every ask of every
        exchange, in registration order. */
    method MergeOrderBooks()
      modifies this
      ensures exchanges == old(exchanges)
      ensures aggregatedBids == Merged(exchanges, true)
      ensures aggregatedAsks == Merged(exchanges, false)
      ensures Valid()
    {
      aggregatedBids := [];
      aggregatedAsks := [];
      var k := 0;
      while k < |exchanges|
        invariant 0 <= k <= |exchanges|
        invariant exchanges == old(exchanges)
        invariant aggregatedBids == Merged(exchanges[..k], true)
        invariant aggregatedAsks == Merged(exchanges[..k], false)
      {
        var x := exchanges[k];
        ghost var doneBids, doneAsks := aggregatedBids, aggregatedAsks;
        var i := 0;
        while i < |x.bids|
          invariant 0 <= i <= |x.bids|
          invariant exchanges == old(exchanges)
          invariant aggregatedBids == InsertAll(doneBids, x.bids[..i])
          invariant aggregatedAsks == doneAsks
        {
          InsertAllSnoc(doneBids, x.bids, i);
          aggregatedBids := Insert(aggregatedBids, x.bids[i]);
          i := i + 1;
        }
        assert x.bids[..i] == x.bids;
        i := 0;
        while i < |x.asks|
          invariant 0 <= i <= |x.asks|
          invariant exchanges == old(exchanges)
          invariant aggregatedBids == InsertAll(doneBids, x.bids)
          invariant aggregatedAsks == InsertAll(doneAsks, x.asks[..i])
        {
          InsertAllSnoc(doneAsks, x.asks, i);
          aggregatedAsks := Insert(aggregatedAsks, x.asks[i]);
          i := i + 1;
        }
        assert x.asks[..i] == x.asks;
        MergeStep(exchanges, k, true);
        MergeStep(exchanges, k, false);
        k := k + 1;
      }
      assert exchanges[..k] == exchanges;
      InsertAllSorted([], AllEntries(exchanges, true));
      InsertAllSorted([], AllEntries(exchanges, false));
    }

    /** `calculateAvailableLiquidity`: the total ask quantity for a buy, the total bid
        quantity for a sell. */
    method CalculateAvailableLiquidity(isBuy: bool) returns (totalLiquidity: real)
      ensures totalLiquidity == SumQuantities(if isBuy then aggregatedAsks else aggregatedBids)
    {
      var side := if isBuy then aggregatedAsks else aggregatedBids;
      totalLiquidity := 0.0;
      for i := 0 to |side|
        invariant totalLiquidity == SumQuantities(side[..i])
      {
        SumSnoc(side, i);
        totalLiquidity := totalLiquidity + side[i].quantity;
      }
      assert side[..|side|] == side;
    }

    /** `calculateCosts`: what it returns or throws is `CostsFor` of the current sides; it
        changes nothing. */
    method CalculateCosts(quantity: real) returns (r: CostResult)
      ensures r == CostsFor(aggregatedAsks, aggregatedBids, quantity)
    {
      var availableBuyLiquidity := CalculateAvailableLiquidity(true);
      var availableSellLiquidity := CalculateAvailableLiquidity(false);
      if quantity > availableBuyLiquidity {
        return Insufficient(InsufficientLiquidityException(BuyShortMessage, quantity, availableBuyLiquidity));
      }
      if quantity > availableSellLiquidity {
        return Insufficient(InsufficientLiquidityException(SellShortMessage, quantity, availableSellLiquidity));
      }

      var buyCost := BuyCost(aggregatedAsks, quantity);
      var sellCost := SellProceeds(aggregatedBids, quantity);
      return Costs(CostPair(buyCost, sellCost));
    }
  }

  // ---------------------------------------------------------------------------------------
  // Lemmas about the aggregate

  lemma FailIndexAt(fetched: seq<FetchOutcome>, i: nat)
    requires i <= |fetched|
    requires forall j :: 0 <= j < i ==> fetched[j].Fetched?
    requires i < |fetched| ==> fetched[i].FetchFailed?
    ensures FailIndex(fetched) == i
  {
  }

  /** Merging one more exchange inserts its entries after those already merged. */
  lemma MergeStep(xs: seq<Exchange>, k: nat, bids: bool)
    requires k < |xs|
    ensures Merged(xs[..k + 1], bids) == InsertAll(Merged(xs[..k], bids), SideOf(xs[k], bids))
  {
    assert xs[..k + 1][..k] == xs[..k];
    InsertAllAppend([], AllEntries(xs[..k], bids), SideOf(xs[k], bids));
  }

  lemma {:induction false} EntryCountIsLength(xs: seq<Exchange>, bids: bool)
    ensures |AllEntries(xs, bids)| == EntryCount(xs, bids)
    decreases |xs|
  {
    if xs != [] {
      EntryCountIsLength(xs[..|xs| - 1], bids);
    }
  }

  /** After a merge, an aggregate side holds exactly every exchange's entries on that side,
      none dropped and none deduplicated: as a multiset it is their union and its size is the
      sum of their sizes. It is in multimap order, and entries of equal price appear in the
      order they were inserted. */
  lemma MergeIsUnionInOrder(xs: seq<Exchange>, bids: bool, p: real)
    ensures multiset(Merged(xs, bids)) == multiset(AllEntries(xs, bids))
    ensures |Merged(xs, bids)| == EntryCount(xs, bids)
    ensures Sorted(Merged(xs, bids))
    ensures AtPrice(Merged(xs, bids), p) == AtPrice(AllEntries(xs, bids), p)
  {
    EntryCountIsLength(xs, bids);
    InsertAllSorted([], AllEntries(xs, bids));
    InsertAllIsStable([], AllEntries(xs, bids), p);
  }

  lemma {:induction false} InAllEntries(xs: seq<Exchange>, bids: bool, k: nat, j: nat)
    requires k < |xs| && j < |SideOf(xs[k], bids)|
    ensures SideOf(xs[k], bids)[j] in multiset(AllEntries(xs, bids))
    decreases |xs|
  {
    if k < |xs| - 1 {
      InAllEntries(xs[..|xs| - 1], bids, k, j);
    } else {
      assert SideOf(xs[k], bids)[j] in SideOf(xs[|xs| - 1], bids);
    }
  }

  lemma {:induction false} FromSomeExchange(xs: seq<Exchange>, bids: bool, e: Entry)
    requires e in multiset(AllEntries(xs, bids))
    ensures exists k, j :: 0 <= k < |xs| && 0 <= j < |SideOf(xs[k], bids)| && SideOf(xs[k], bids)[j] == e
    decreases |xs|
  {
    var init, last := xs[..|xs| - 1], xs[|xs| - 1];
    if e in multiset(AllEntries(init, bids)) {
      FromSomeExchange(init, bids, e);
      var k, j :| 0 <= k < |init| && 0 <= j < |SideOf(init[k], bids)| && SideOf(init[k], bids)[j] == e;
      assert xs[k] == init[k];
    } else {
      assert e in multiset(SideOf(last, bids));
      var j :| 0 <= j < |SideOf(last, bids)| && SideOf(last, bids)[j] == e;
      assert SideOf(xs[|xs| - 1], bids)[j] == e;
    }
  }

  /** Best buy price: after a merge the first ask is no higher than any exchange's ask. */
  lemma BestAskIsLowest(xs: seq<Exchange>)
    requires Merged(xs, false) != []
    ensures forall k, j :: 0 <= k < |xs| && 0 <= j < |xs[k].asks| ==>
      Merged(xs, false)[0].price <= xs[k].asks[j].price
  {
    var asks := Merged(xs, false);
    InsertAllSorted([], AllEntries(xs, false));
    forall k, j | 0 <= k < |xs| && 0 <= j < |xs[k].asks| ensures asks[0].price <= xs[k].asks[j].price {
      InAllEntries(xs, false, k, j);
      SortedFirstIsLowest(asks, xs[k].asks[j]);
    }
  }

  /** The first ask after a merge is one of the exchanges' own asks. */
  lemma BestAskIsQuoted(xs: seq<Exchange>)
    requires Merged(xs, false) != []
    ensures exists k, j :: 0 <= k < |xs| && 0 <= j < |xs[k].asks| && xs[k].asks[j] == Merged(xs, false)[0]
  {
    var asks := Merged(xs, false);
    assert asks[0] in multiset(asks);
    assert asks[0] in multiset(AllEntries(xs, false));
    FromSomeExchange(xs, false, asks[0]);
  }

  /** Best sell price: after a merge the last bid is no lower than any exchange's bid. */
  lemma BestBidIsHighest(xs: seq<Exchange>)
    requires Merged(xs, true) != []
    ensures var bids := Merged(xs, true);
      forall k, j :: 0 <= k < |xs| && 0 <= j < |xs[k].bids| ==> xs[k].bids[j].price <= bids[|bids| - 1].price
  {
    var bids := Merged(xs, true);
    InsertAllSorted([], AllEntries(xs, true));
    forall k, j | 0 <= k < |xs| && 0 <= j < |xs[k].bids| ensures xs[k].bids[j].price <= bids[|bids| - 1].price {
      InAllEntries(xs, true, k, j);
      SortedLastIsHighest(bids, xs[k].bids[j]);
    }
  }

  /** The last bid after a merge is one of the exchanges' own bids. */
  lemma BestBidIsQuoted(xs: seq<Exchange>)
    requires Merged(xs, true) != []
    ensures var bids := Merged(xs, true);
      exists k, j :: 0 <= k < |xs| && 0 <= j < |xs[k].bids| && xs[k].bids[j] == bids[|bids| - 1]
  {
    var bids := Merged(xs, true);
    assert bids[|bids| - 1] in multiset(bids);
    assert bids[|bids| - 1] in multiset(AllEntries(xs, true));
    FromSomeExchange(xs, true, bids[|bids| - 1]);
  }

  lemma SortedFirstIsLowest(s: seq<Entry>, e: Entry)
    requires Sorted(s) && e in multiset(s)
    ensures s[0].price <= e.price
  {
    var m :| 0 <= m < |s| && s[m] == e;
  }

  lemma SortedLastIsHighest(s: seq<Entry>, e: Entry)
    requires Sorted(s) && e in multiset(s)
    ensures e.price <= s[|s| - 1].price
  {
    var m :| 0 <= m < |s| && s[m] == e;
  }

  lemma {:induction false} AllEntriesLiquidity(xs: seq<Exchange>, bids: bool)
    ensures SumQuantities(AllEntries(xs, bids)) == ExchangeLiquidity(xs, bids)
    decreases |xs|
  {
    if xs != [] {
      AllEntriesLiquidity(xs[..|xs| - 1], bids);
      SumConcat(AllEntries(xs[..|xs| - 1], bids), SideOf(xs[|xs| - 1], bids));
    }
  }

  /** After a merge the liquidity of a side is the sum of every exchange's liquidity on it. */
  lemma MergedLiquidity(xs: seq<Exchange>, bids: bool)
    ensures SumQuantities(Merged(xs, bids)) == ExchangeLiquidity(xs, bids)
  {
    SumInsertAll([], AllEntries(xs, bids));
    AllEntriesLiquidity(xs, bids);
  }

  /** Clear-then-rebuild: a refresh whose fetches all succeed leaves exchanges, and so
      aggregates, that a second refresh with the same outcomes reproduces exactly. */
  lemma RefreshIsIdempotent(xs: seq<Exchange>, fetched: seq<FetchOutcome>)
    requires |fetched| == |xs|
    requires FirstError(fetched).None?
    ensures Refreshed(Refreshed(xs, fetched), fetched) == Refreshed(xs, fetched)
    ensures Merged(Refreshed(Refreshed(xs, fetched), fetched), true) == Merged(Refreshed(xs, fetched), true)
    ensures Merged(Refreshed(Refreshed(xs, fetched), fetched), false) == Merged(Refreshed(xs, fetched), false)
  {
    var once := Refreshed(xs, fetched);
    var twice := Refreshed(once, fetched);
    forall j | 0 <= j < |xs| ensures twice[j] == once[j] {
      assert fetched[j].Fetched?;
    }
  }

  /** The shortfall errors: the buy side is checked first and reports the ask liquidity, then
      the sell side reports the bid liquidity; the call fails exactly when one of them is short,
      and then returns no cost. */
  lemma ShortfallErrors(asks: seq<Entry>, bids: seq<Entry>, quantity: real)
    ensures CostsFor(asks, bids, quantity).Insufficient?
      <==> quantity > SumQuantities(asks) || quantity > SumQuantities(bids)
    ensures quantity > SumQuantities(asks) ==>
      CostsFor(asks, bids, quantity).error
        == InsufficientLiquidityException(BuyShortMessage, quantity, SumQuantities(asks))
    ensures quantity <= SumQuantities(asks) && quantity > SumQuantities(bids) ==>
      CostsFor(asks, bids, quantity).error
        == InsufficientLiquidityException(SellShortMessage, quantity, SumQuantities(bids))
  {
  }

  /** When the call succeeds on a book with non-negative quantities, each walk fills the
      requested quantity exactly. */
  lemma SuccessFillsExactly(asks: seq<Entry>, bids: seq<Entry>, quantity: real)
    requires NonNegativeQuantities(asks) && NonNegativeQuantities(bids)
    requires 0.0 <= quantity
    requires CostsFor(asks, bids, quantity).Costs?
    ensures Walk(asks, quantity).remaining == 0.0 && Total(Walk(asks, quantity).fills) == quantity
    ensures Walk(Reverse(bids), quantity).remaining == 0.0
      && Total(Walk(Reverse(bids), quantity).fills) == quantity
  {
    WalkFillsExactly(asks, quantity);
    SumReverse(bids);
    assert NonNegativeQuantities(Reverse(bids)) by {
      ReverseLength(bids);
      forall k | 0 <= k < |Reverse(bids)| ensures 0.0 <= Reverse(bids)[k].quantity {
        ReverseAt(bids, k);
      }
    }
    WalkFillsExactly(Reverse(bids), quantity);
  }

  /** Asking for nothing (or less) on a book with non-negative quantities costs nothing on
      either side. */
  lemma NothingCostsNothing(asks: seq<Entry>, bids: seq<Entry>, quantity: real)
    requires NonNegativeQuantities(asks) && NonNegativeQuantities(bids)
    requires quantity <= 0.0
    ensures CostsFor(asks, bids, quantity) == Costs(CostPair(0.0, 0.0))
  {
    SumNonNegative(asks);
    SumNonNegative(bids);
  }

  /** Greedy best execution, buy side: on ordered asks, buying pays per unit at least the
      best (lowest) ask and at most the highest ask. */
  lemma BuyCostWithinAskRange(asks: seq<Entry>, bids: seq<Entry>, quantity: real)
    requires Sorted(asks) && NonNegativeQuantities(asks) && NonNegativeQuantities(bids)
    requires 0.0 < quantity
    requires CostsFor(asks, bids, quantity).Costs?
    ensures asks != []
    ensures CostWithin(CostsFor(asks, bids, quantity).costs.buyCost, quantity,
                       asks[0].price, asks[|asks| - 1].price)
  {
    WalkFillsExactly(asks, quantity);
    assert AllAtLeast(asks, asks[0].price) && AllAtMost(asks, asks[|asks| - 1].price);
    WalkCostBounds(asks, quantity, asks[0].price, asks[|asks| - 1].price);
    PaidWithinFor(Walk(asks, quantity), CostsFor(asks, bids, quantity).costs.buyCost, quantity,
                  asks[0].price, asks[|asks| - 1].price);
  }

  /** Greedy best execution, sell side: on ordered bids, selling receives per unit at most the
      best (highest) bid and at least the lowest bid. */
  lemma SellProceedsWithinBidRange(asks: seq<Entry>, bids: seq<Entry>, quantity: real)
    requires Sorted(bids) && NonNegativeQuantities(asks) && NonNegativeQuantities(bids)
    requires 0.0 < quantity
    requires CostsFor(asks, bids, quantity).Costs?
    ensures bids != []
    ensures CostWithin(CostsFor(asks, bids, quantity).costs.sellCost, quantity,
                       bids[0].price, bids[|bids| - 1].price)
  {
    SuccessFillsExactly(asks, bids, quantity);
    var rev := Reverse(bids);
    ReversedLevels(bids);
    assert CostsFor(asks, bids, quantity).costs.sellCost == Walk(rev, quantity).cost;
    WalkCostBounds(rev, quantity, bids[0].price, bids[|bids| - 1].price);
    PaidWithinFor(Walk(rev, quantity), CostsFor(asks, bids, quantity).costs.sellCost, quantity,
                  bids[0].price, bids[|bids| - 1].price);
  }

  // ---------------------------------------------------------------------------------------
  // Worked examples

  /** Two exchanges, one level per side each: buying one unit pays the better ask, 50100, and
      selling one unit receives the better bid, 50050. */
  lemma TwoExchangeExample()
    ensures var xs := [
        Exchange("Exchange1", [Entry(50000.0, 1.0, "Exchange1")], [Entry(50100.0, 1.0, "Exchange1")]),
        Exchange("Exchange2", [Entry(50050.0, 1.0, "Exchange2")], [Entry(50150.0, 1.0, "Exchange2")])];
      CostsFor(Merged(xs, false), Merged(xs, true), 1.0) == Costs(CostPair(50100.0, 50050.0))
  {
    var e1b, e1a := Entry(50000.0, 1.0, "Exchange1"), Entry(50100.0, 1.0, "Exchange1");
    var e2b, e2a := Entry(50050.0, 1.0, "Exchange2"), Entry(50150.0, 1.0, "Exchange2");
    var xs := [Exchange("Exchange1", [e1b], [e1a]), Exchange("Exchange2", [e2b], [e2a])];
    TwoExchangeEntries(xs[0], xs[1], true);
    TwoExchangeEntries(xs[0], xs[1], false);
    assert [xs[0], xs[1]] == xs;
    TwoLevelMerge(e1a, e2a);
    TwoLevelMerge(e1b, e2b);
    var asks, bids := [e1a, e2a], [e1b, e2b];
    TwoLevelLiquidity(e1a, e2a);
    TwoLevelLiquidity(e1b, e2b);
    TwoLevelReverse(e1b, e2b);
    OneUnitFromFirstLevel(e1a, e2a);
    OneUnitFromFirstLevel(e2b, e1b);
  }

  /** One unit taken from a first level that holds a unit costs that level's price. */
  lemma OneUnitFromFirstLevel(first: Entry, second: Entry)
    requires 1.0 <= first.quantity
    ensures Walk([first, second], 1.0).cost == first.price
  {
    assert [first, second][1..] == [second];
    assert Walk([second], 0.0).cost == 0.0;
  }

  /** Two entries, the second not cheaper, are merged in that order. */
  lemma TwoLevelMerge(first: Entry, second: Entry)
    requires first.price <= second.price
    ensures InsertAll([], [first, second]) == [first, second]
  {
    assert [first, second][..1] == [first] && [first][..0] == [];
    assert InsertAll([], []) == [];
    assert InsertAll([], [first]) == Insert([], first) == [first];
    assert [first][1..] == [];
    assert Insert([first], second) == [first] + Insert([], second) == [first, second];
    assert InsertAll([], [first, second]) == Insert(InsertAll([], [first]), second);
  }

  lemma TwoExchangeEntries(x: Exchange, y: Exchange, bids: bool)
    ensures AllEntries([x, y], bids) == SideOf(x, bids) + SideOf(y, bids)
  {
    assert [x, y][..1] == [x] && [x][..0] == [];
    assert AllEntries([x], bids) == [] + SideOf(x, bids);
  }

  lemma TwoLevelReverse(first: Entry, second: Entry)
    ensures Reverse([first, second]) == [second, first]
  {
    assert [first, second][..1] == [first] && [first][..0] == [];
    assert Reverse([first]) == [first] + Reverse([]);
  }

  lemma TwoLevelLiquidity(first: Entry, second: Entry)
    ensures SumQuantities([first, second]) == first.quantity + second.quantity
  {
    assert [first, second][..1] == [first] && [first][..0] == [];
    assert SumQuantities([]) == 0.0;
    assert SumQuantities([first]) == first.quantity;
    assert SumQuantities([first, second]) == SumQuantities([first]) + second.quantity;
  }

  /** A walk across two levels: 0.5 at 100 and 0.5 at 101 cost 100.5. */
  lemma MultiLevelExample()
    ensures Walk([Entry(100.0, 0.5, "Exchange1"), Entry(101.0, 1.0, "Exchange1")], 1.0).cost == 100.5
  {
    var levels := [Entry(100.0, 0.5, "Exchange1"), Entry(101.0, 1.0, "Exchange1")];
    assert levels[1..] == [levels[1]] && levels[1..][1..] == [];
  }

  /** One exchange holding two units per side, after a merge: asking for three fails on the
      buy side with requested 3 and available 2. */
  lemma InsufficientLiquidityExample()
    ensures var xs := [Exchange("MockExchange",
        [Entry(49900.0, 1.0, "MockExchange"), Entry(50000.0, 1.0, "MockExchange")],
        [Entry(50100.0, 1.0, "MockExchange"), Entry(50200.0, 1.0, "MockExchange")])];
      CostsFor(Merged(xs, false), Merged(xs, true), 3.0)
        == Insufficient(InsufficientLiquidityException(BuyShortMessage, 3.0, 2.0))
  {
    var b := [Entry(49900.0, 1.0, "MockExchange"), Entry(50000.0, 1.0, "MockExchange")];
    var a := [Entry(50100.0, 1.0, "MockExchange"), Entry(50200.0, 1.0, "MockExchange")];
    var xs := [Exchange("MockExchange", b, a)];
    assert xs[..0] == [];
    assert AllEntries(xs, false) == a;
    MergedLiquidity(xs, false);
    assert a[..1] == [a[0]] && a[..1][..0] == [];
    assert SumQuantities(a) == 2.0;
  }

  // ---------------------------------------------------------------------------------------
  // The insufficient-liquidity scenario, driven through the object

  /** The mock exchange of the insufficient-liquidity scenario: two units on each side. */
  function MockExchange(): Exchange
  {
    Exchange("MockExchange",
      [Entry(49900.0, 1.0, "MockExchange"), Entry(50000.0, 1.0, "MockExchange")],
      [Entry(50100.0, 1.0, "MockExchange"), Entry(50200.0, 1.0, "MockExchange")])
  }

  /** The scenario as the test writes it: the exchange is added but the books are never
      fetched and merged, so both aggregate sides are empty and the buy-side error reports
      nothing available, not the two units the test expects. */
  method InsufficientLiquidityAsWritten() returns (r: CostResult)
    ensures r == Insufficient(InsufficientLiquidityException(BuyShortMessage, 3.0, 0.0))
  {
    var book := new AggregatedOrderBook();
    book.AddExchange(MockExchange());
    r := book.CalculateCosts(3.0);
  }

  /** The scenario with the fetch-and-merge step the test leaves out (the mock's fetch
      returns its own books): the buy-side error reports the two units available. */
  method InsufficientLiquidityWithMerge() returns (r: CostResult)
    ensures r == Insufficient(InsufficientLiquidityException(BuyShortMessage, 3.0, 2.0))
  {
    var book := new AggregatedOrderBook();
    var x := MockExchange();
    book.AddExchange(x);
    MockFetchRefreshes();
    var error := book.FetchAllOrderBooks([Fetched(x.bids, x.asks)]);
    InsufficientLiquidityExample();
    r := book.CalculateCosts(3.0);
  }

  /** The mock's fetch returns its own books: the cycle succeeds and changes nothing. */
  lemma MockFetchRefreshes()
    ensures var x := MockExchange(); var f := [Fetched(x.bids, x.asks)];
      Refreshed([x], f) == [x] && FirstError(f).None?
  {
    var x := MockExchange();
    var f := [Fetched(x.bids, x.asks)];
    FailIndexAt(f, 1);
    assert Refreshed([x], f)[0] == x;
  }
}
