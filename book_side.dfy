/** One side of an order book (the bids or the asks) as the sequence that iterating its
    price-keyed multimap visits, and the computations done over a side: insertion,
    liquidity, and the greedy walk that fills a quantity level by level. */
module BookSide {
  import opened Entries

  /** Multimap iteration order: prices never decrease. */
  predicate Sorted(s: seq<Entry>)
  {
    forall i, j :: 0 <= i < j < |s| ==> s[i].price <= s[j].price
  }

  /** Every price on the side is at least `lo`. */
  predicate AllAtLeast(s: seq<Entry>, lo: real)
  {
    forall i :: 0 <= i < |s| ==> lo <= s[i].price
  }

  /** Every price on the side is at most `hi`. */
  predicate AllAtMost(s: seq<Entry>, hi: real)
  {
    forall i :: 0 <= i < |s| ==> s[i].price <= hi
  }

  /** No level has a negative quantity. */
  predicate NonNegativeQuantities(s: seq<Entry>)
  {
    forall i :: 0 <= i < |s| ==> 0.0 <= s[i].quantity
  }

  /** `multimap::insert` with key `e.price`: the entry goes in front of the first strictly
      higher price, that is after every entry of equal price already there. */
  function Insert(s: seq<Entry>, e: Entry): (r: seq<Entry>)
    ensures multiset(r) == multiset(s) + multiset{e}
    ensures |r| == |s| + 1
  {
    if s == [] || e.price < s[0].price then [e] + s
    else
      assert s == [s[0]] + s[1..];
      [s[0]] + Insert(s[1..], e)
  }

  /** The entries of `es` inserted one after another, first to last. */
  function InsertAll(s: seq<Entry>, es: seq<Entry>): (r: seq<Entry>)
    ensures multiset(r) == multiset(s) + multiset(es)
    ensures |r| == |s| + |es|
    decreases |es|
  {
    if es == [] then s
    else
      assert es == es[..|es| - 1] + [es[|es| - 1]];
      Insert(InsertAll(s, es[..|es| - 1]), es[|es| - 1])
  }

  /** The entries with price exactly `p`, in side order. */
  function AtPrice(s: seq<Entry>, p: real): seq<Entry>
  {
    if s == [] then []
    else (if s[0].price == p then [s[0]] else []) + AtPrice(s[1..], p)
  }

  /** `calculateAvailableLiquidity` over one side: the total quantity. */
  function SumQuantities(s: seq<Entry>): real
  {
    if s == [] then 0.0 else SumQuantities(s[..|s| - 1]) + s[|s| - 1].quantity
  }

  /** The side in reverse, as a reverse iterator visits it. */
  function Reverse(s: seq<Entry>): seq<Entry>
  {
    if s == [] then [] else [s[|s| - 1]] + Reverse(s[..|s| - 1])
  }

  /** `std::min`. */
  function Min(a: real, b: real): real
  {
    if b < a then b else a
  }

  /** The outcome of walking a side: what the fills cost, what is left to fill, and the
      quantity taken at each level visited. */
  datatype Walked = Walked(cost: real, remaining: real, fills: seq<real>)

  /** The sum of a list of fills. */
  function Total(xs: seq<real>): real
  {
    if xs == [] then 0.0 else xs[0] + Total(xs[1..])
  }

  /** Sum of fill times price, pairing the fills with the first levels. */
  function Dot(fills: seq<real>, levels: seq<Entry>): real
    requires |fills| <= |levels|
  {
    if fills == [] then 0.0 else fills[0] * levels[0].price + Dot(fills[1..], levels[1..])
  }

  /** The greedy walk of `calculateCosts`: levels are taken in the given order; the walk stops
      as soon as nothing remains; at each level `min(remaining, quantity)` is filled and pays
      its price. At most one fill is made per level. */
  function Walk(levels: seq<Entry>, remaining: real): (w: Walked)
    ensures |w.fills| <= |levels|
    decreases |levels|
  {
    if levels == [] || remaining <= 0.0 then Walked(0.0, remaining, [])
    else
      var fill := Min(remaining, levels[0].quantity);
      var rest := Walk(levels[1..], remaining - fill);
      Walked(fill * levels[0].price + rest.cost, rest.remaining, [fill] + rest.fills)
  }

  // ---------------------------------------------------------------------------------------
  // Insertion keeps a side ordered and stable

  lemma {:induction false} InsertSorted(s: seq<Entry>, e: Entry)
    requires Sorted(s)
    ensures Sorted(Insert(s, e))
    decreases |s|
  {
    if s == [] || e.price < s[0].price {
      if s != [] {
        SortedTail(s);
        assert AllAtLeast(s, e.price);
      }
      SortedCons(e, s);
    } else {
      SortedTail(s);
      InsertSorted(s[1..], e);
      InsertKeepsLowerBound(s[1..], e, s[0].price);
      SortedCons(s[0], Insert(s[1..], e));
    }
  }

  /** Inserting an entry no cheaper than a bound keeps every price at or above the bound. */
  lemma {:induction false} InsertKeepsLowerBound(s: seq<Entry>, e: Entry, lo: real)
    requires AllAtLeast(s, lo) && lo <= e.price
    ensures AllAtLeast(Insert(s, e), lo)
    decreases |s|
  {
    if s != [] && s[0].price <= e.price {
      assert AllAtLeast(s[1..], lo) by {
        forall k | 0 <= k < |s[1..]| ensures lo <= s[1..][k].price {
          assert s[1..][k] == s[k + 1];
        }
      }
      InsertKeepsLowerBound(s[1..], e, lo);
      var r := Insert(s[1..], e);
      forall k | 0 <= k < |[s[0]] + r| ensures lo <= ([s[0]] + r)[k].price {
        if k > 0 {
          assert ([s[0]] + r)[k] == r[k - 1];
        }
      }
    }
  }

  /** An entry no dearer than every price of an ordered side can go in front of it. */
  lemma SortedCons(x: Entry, s: seq<Entry>)
    requires Sorted(s) && AllAtLeast(s, x.price)
    ensures Sorted([x] + s)
  {
    forall i, j | 0 <= i < j < |[x] + s| ensures ([x] + s)[i].price <= ([x] + s)[j].price {
      assert ([x] + s)[j] == s[j - 1];
      if i > 0 {
        assert ([x] + s)[i] == s[i - 1];
      }
    }
  }

  lemma {:induction false} InsertAllSorted(s: seq<Entry>, es: seq<Entry>)
    requires Sorted(s)
    ensures Sorted(InsertAll(s, es))
    decreases |es|
  {
    if es != [] {
      InsertAllSorted(s, es[..|es| - 1]);
      InsertSorted(InsertAll(s, es[..|es| - 1]), es[|es| - 1]);
    }
  }

  lemma {:induction false} AtPriceConcat(a: seq<Entry>, b: seq<Entry>, p: real)
    ensures AtPrice(a + b, p) == AtPrice(a, p) + AtPrice(b, p)
    decreases |a|
  {
    if a == [] {
      assert a + b == b;
    } else {
      assert (a + b)[0] == a[0];
      assert (a + b)[1..] == a[1..] + b;
      AtPriceConcat(a[1..], b, p);
    }
  }

  lemma {:induction false} AtPriceNone(s: seq<Entry>, p: real)
    requires forall k :: 0 <= k < |s| ==> p < s[k].price
    ensures AtPrice(s, p) == []
    decreases |s|
  {
    if s != [] {
      AtPriceNone(s[1..], p);
    }
  }

  /** Equal prices keep their insertion order: the new entry comes after every entry of its
      own price, and entries of other prices are unaffected. */
  lemma {:induction false} InsertIsStable(s: seq<Entry>, e: Entry, p: real)
    requires Sorted(s)
    ensures AtPrice(Insert(s, e), p) == AtPrice(s, p) + (if e.price == p then [e] else [])
    decreases |s|
  {
    if s == [] {
      assert Insert(s, e) == [e];
      AtPriceSingle(e, p);
    } else if e.price < s[0].price {
      InsertInFront(s, e, p);
    } else {
      SortedTail(s);
      InsertIsStable(s[1..], e, p);
      InsertPastHead(s, e, p);
    }
  }

  /** The new entry goes in front of a head that is strictly dearer. */
  lemma InsertInFront(s: seq<Entry>, e: Entry, p: real)
    requires Sorted(s) && s != [] && e.price < s[0].price
    ensures AtPrice(Insert(s, e), p) == AtPrice(s, p) + (if e.price == p then [e] else [])
  {
    var x := if e.price == p then [e] else [];
    AtPriceSingle(e, p);
    if e.price == p {
      SortedTail(s);
      AtPriceNone(s, p);
    }
    calc {
      AtPrice(Insert(s, e), p);
      { assert Insert(s, e) == [e] + s; }
      AtPrice([e] + s, p);
      { AtPriceConcat([e], s, p); }
      x + AtPrice(s, p);
      AtPrice(s, p) + x;
    }
  }

  /** The new entry goes past a head that is no dearer, into the tail. */
  lemma InsertPastHead(s: seq<Entry>, e: Entry, p: real)
    requires s != [] && s[0].price <= e.price
    requires AtPrice(Insert(s[1..], e), p) == AtPrice(s[1..], p) + (if e.price == p then [e] else [])
    ensures AtPrice(Insert(s, e), p) == AtPrice(s, p) + (if e.price == p then [e] else [])
  {
    var x := if e.price == p then [e] else [];
    var head, tail := [s[0]], s[1..];
    calc {
      AtPrice(Insert(s, e), p);
      { assert Insert(s, e) == head + Insert(tail, e); }
      AtPrice(head + Insert(tail, e), p);
      { AtPriceConcat(head, Insert(tail, e), p); }
      AtPrice(head, p) + (AtPrice(tail, p) + x);
      AtPrice(head, p) + AtPrice(tail, p) + x;
      { AtPriceConcat(head, tail, p); assert head + tail == s; }
      AtPrice(s, p) + x;
    }
  }

  /** The tail of an ordered side is ordered, and nothing on the side is cheaper than its head. */
  lemma SortedTail(s: seq<Entry>)
    requires Sorted(s) && s != []
    ensures Sorted(s[1..])
    ensures forall k :: 0 <= k < |s| ==> s[0].price <= s[k].price
  {
  }

  /** Inserting a list keeps, at each price, the old entries followed by the new ones in the
      order they were inserted. */
  lemma {:induction false} InsertAllIsStable(s: seq<Entry>, es: seq<Entry>, p: real)
    requires Sorted(s)
    ensures AtPrice(InsertAll(s, es), p) == AtPrice(s, p) + AtPrice(es, p)
    decreases |es|
  {
    if es != [] {
      var init, last := es[..|es| - 1], es[|es| - 1];
      var t := InsertAll(s, init);
      assert es == init + [last];
      calc {
        AtPrice(InsertAll(s, es), p);
        AtPrice(Insert(t, last), p);
        { InsertAllSorted(s, init); InsertIsStable(t, last, p); AtPriceSingle(last, p); }
        AtPrice(t, p) + AtPrice([last], p);
        { InsertAllIsStable(s, init, p); }
        AtPrice(s, p) + AtPrice(init, p) + AtPrice([last], p);
        { AtPriceConcat(init, [last], p); }
        AtPrice(s, p) + AtPrice(es, p);
      }
    }
  }

  lemma AtPriceSingle(e: Entry, p: real)
    ensures AtPrice([e], p) == (if e.price == p then [e] else [])
  {
    assert [e][1..] == [];
  }

  /** Inserting `a` and then `b` is inserting `a + b`. */
  lemma {:induction false} InsertAllAppend(s: seq<Entry>, a: seq<Entry>, b: seq<Entry>)
    ensures InsertAll(InsertAll(s, a), b) == InsertAll(s, a + b)
    decreases |b|
  {
    if b == [] {
      assert a + b == a;
    } else {
      assert (a + b)[..|a + b| - 1] == a + b[..|b| - 1];
      InsertAllAppend(s, a, b[..|b| - 1]);
    }
  }

  // ---------------------------------------------------------------------------------------
  // Liquidity

  lemma {:induction false} SumFront(x: Entry, s: seq<Entry>)
    ensures SumQuantities([x] + s) == x.quantity + SumQuantities(s)
    decreases |s|
  {
    if s != [] {
      assert ([x] + s)[..|[x] + s| - 1] == [x] + s[..|s| - 1];
      SumFront(x, s[..|s| - 1]);
    }
  }

  lemma {:induction false} SumConcat(a: seq<Entry>, b: seq<Entry>)
    ensures SumQuantities(a + b) == SumQuantities(a) + SumQuantities(b)
    decreases |b|
  {
    if b == [] {
      assert a + b == a;
    } else {
      assert (a + b)[..|a + b| - 1] == a + b[..|b| - 1];
      SumConcat(a, b[..|b| - 1]);
    }
  }

  /** A side whose quantities are non-negative has non-negative liquidity. */
  lemma {:induction false} SumNonNegative(s: seq<Entry>)
    requires NonNegativeQuantities(s)
    ensures 0.0 <= SumQuantities(s)
    decreases |s|
  {
    if s != [] {
      var init := s[..|s| - 1];
      assert NonNegativeQuantities(init) by {
        forall k | 0 <= k < |init| ensures 0.0 <= init[k].quantity {
          assert init[k] == s[k];
        }
      }
      SumNonNegative(init);
    }
  }

  /** Inserting an entry adds exactly its quantity to the side's liquidity. */
  lemma {:induction false} SumInsert(s: seq<Entry>, e: Entry)
    ensures SumQuantities(Insert(s, e)) == SumQuantities(s) + e.quantity
    decreases |s|
  {
    if s == [] || e.price < s[0].price {
      SumFront(e, s);
    } else {
      SumInsert(s[1..], e);
      SumFront(s[0], Insert(s[1..], e));
      SumFront(s[0], s[1..]);
      assert s == [s[0]] + s[1..];
    }
  }

  lemma {:induction false} SumInsertAll(s: seq<Entry>, es: seq<Entry>)
    ensures SumQuantities(InsertAll(s, es)) == SumQuantities(s) + SumQuantities(es)
    decreases |es|
  {
    if es != [] {
      SumInsertAll(s, es[..|es| - 1]);
      SumInsert(InsertAll(s, es[..|es| - 1]), es[|es| - 1]);
    }
  }

  // ---------------------------------------------------------------------------------------
  // Reverse traversal

  lemma {:induction false} ReverseAt(s: seq<Entry>, k: nat)
    requires k < |s|
    ensures |Reverse(s)| == |s| && Reverse(s)[k] == s[|s| - 1 - k]
    decreases |s|
  {
    ReverseLength(s);
    if k > 0 {
      ReverseAt(s[..|s| - 1], k - 1);
    }
  }

  lemma {:induction false} ReverseLength(s: seq<Entry>)
    ensures |Reverse(s)| == |s|
    decreases |s|
  {
    if s != [] {
      ReverseLength(s[..|s| - 1]);
    }
  }

  /** Walking the side backwards visits the same liquidity. */
  lemma {:induction false} SumReverse(s: seq<Entry>)
    ensures SumQuantities(Reverse(s)) == SumQuantities(s)
    decreases |s|
  {
    if s != [] {
      SumReverse(s[..|s| - 1]);
      SumFront(s[|s| - 1], Reverse(s[..|s| - 1]));
    }
  }

  /** On an ordered side the reverse walk meets the highest price first, and every price it
      meets is at most the last (highest) one. */
  lemma ReverseOfSorted(s: seq<Entry>)
    requires Sorted(s) && s != []
    ensures Reverse(s) != [] && Reverse(s)[0] == s[|s| - 1]
    ensures AllAtMost(Reverse(s), s[|s| - 1].price)
    ensures forall i, j :: 0 <= i < j < |Reverse(s)| ==> Reverse(s)[j].price <= Reverse(s)[i].price
  {
    ReverseLength(s);
    ReverseAt(s, 0);
    forall i | 0 <= i < |s| ensures Reverse(s)[i].price <= s[|s| - 1].price {
      ReverseAt(s, i);
    }
    forall i, j | 0 <= i < j < |s| ensures Reverse(s)[j].price <= Reverse(s)[i].price {
      ReverseAt(s, i);
      ReverseAt(s, j);
    }
  }

  /** Reversing an ordered side keeps its quantities and its price range. */
  lemma ReversedLevels(s: seq<Entry>)
    requires Sorted(s) && NonNegativeQuantities(s) && s != []
    ensures NonNegativeQuantities(Reverse(s))
    ensures AllAtLeast(Reverse(s), s[0].price) && AllAtMost(Reverse(s), s[|s| - 1].price)
  {
    ReverseLength(s);
    forall k | 0 <= k < |s|
      ensures 0.0 <= Reverse(s)[k].quantity && s[0].price <= Reverse(s)[k].price <= s[|s| - 1].price
    {
      ReverseAt(s, k);
    }
  }

  // ---------------------------------------------------------------------------------------
  // The greedy walk

  /** The fills add up to the requested amount minus what is left. */
  lemma {:induction false} WalkFillsAddUp(levels: seq<Entry>, remaining: real)
    ensures Total(Walk(levels, remaining).fills) == remaining - Walk(levels, remaining).remaining
    decreases |levels|
  {
    if levels != [] && 0.0 < remaining {
      var fill := Min(remaining, levels[0].quantity);
      WalkFillsAddUp(levels[1..], remaining - fill);
      var fills := Walk(levels, remaining).fills;
      assert fills == [fill] + Walk(levels[1..], remaining - fill).fills;
      assert fills[1..] == Walk(levels[1..], remaining - fill).fills;
    }
  }

  /** With a non-negative request the remainder never goes negative, and with non-negative
      level quantities every fill is non-negative, so the remainder never grows. */
  lemma {:induction false} WalkRemainingBounds(levels: seq<Entry>, remaining: real)
    ensures 0.0 <= remaining ==> 0.0 <= Walk(levels, remaining).remaining
    ensures NonNegativeQuantities(levels) ==>
      Walk(levels, remaining).remaining <= remaining
      && forall k :: 0 <= k < |Walk(levels, remaining).fills| ==>
           0.0 <= Walk(levels, remaining).fills[k] <= remaining
    decreases |levels|
  {
    if levels != [] && 0.0 < remaining {
      var fill := Min(remaining, levels[0].quantity);
      WalkRemainingBounds(levels[1..], remaining - fill);
      if NonNegativeQuantities(levels) {
        assert NonNegativeQuantities(levels[1..]) by {
          forall k | 0 <= k < |levels[1..]| ensures 0.0 <= levels[1..][k].quantity {
            assert levels[1..][k] == levels[k + 1];
          }
        }
        var w := Walk(levels, remaining);
        assert w.fills == [fill] + Walk(levels[1..], remaining - fill).fills;
      }
    }
  }

  /** With non-negative quantities and a request no larger than the side's liquidity, the
      walk fills the request exactly: nothing is left and the fills add up to it. */
  lemma {:induction false} WalkFillsExactly(levels: seq<Entry>, quantity: real)
    requires NonNegativeQuantities(levels)
    requires 0.0 <= quantity <= SumQuantities(levels)
    ensures Walk(levels, quantity).remaining == 0.0
    ensures Total(Walk(levels, quantity).fills) == quantity
    decreases |levels|
  {
    if levels == [] || quantity <= 0.0 {
    } else {
      assert levels == [levels[0]] + levels[1..];
      SumFront(levels[0], levels[1..]);
      var fill := Min(quantity, levels[0].quantity);
      assert NonNegativeQuantities(levels[1..]) by {
        forall k | 0 <= k < |levels[1..]| ensures 0.0 <= levels[1..][k].quantity {
          assert levels[1..][k] == levels[k + 1];
        }
      }
      SumNonNegative(levels[1..]);
      WalkFillsExactly(levels[1..], quantity - fill);
      WalkFillsAddUp(levels, quantity);
    }
  }

  /** Every fill pays at least the lowest price on the walked levels and at most the highest:
      the cost lies between the total filled times `lo` and times `hi`. */
  lemma WalkCostBounds(levels: seq<Entry>, remaining: real, lo: real, hi: real)
    requires NonNegativeQuantities(levels)
    requires AllAtLeast(levels, lo) && AllAtMost(levels, hi)
    ensures PaidWithin(Walk(levels, remaining), lo, hi)
  {
    WalkCostIsSumOfFills(levels, remaining);
    WalkRemainingBounds(levels, remaining);
    PaidWithinOf(Walk(levels, remaining), levels, lo, hi);
  }

  /** The walk paid at least `lo` and at most `hi` per unit filled. */
  predicate PaidWithin(w: Walked, lo: real, hi: real)
  {
    Total(w.fills) * lo <= w.cost <= Total(w.fills) * hi
  }

  /** `cost` is at least `quantity` times `lo` and at most `quantity` times `hi`. */
  predicate CostWithin(cost: real, quantity: real, lo: real, hi: real)
  {
    quantity * lo <= cost <= quantity * hi
  }

  /** A walk that paid within `[lo, hi]` per unit and filled `quantity` in total has a cost
      within `quantity` times that range. */
  lemma PaidWithinFor(w: Walked, cost: real, quantity: real, lo: real, hi: real)
    requires PaidWithin(w, lo, hi) && Total(w.fills) == quantity && w.cost == cost
    ensures CostWithin(cost, quantity, lo, hi)
  {
  }

  /** The cost pairing fills with levels priced in `[lo, hi]` is paid within that range. */
  lemma PaidWithinOf(w: Walked, levels: seq<Entry>, lo: real, hi: real)
    requires |w.fills| <= |levels| && w.cost == Dot(w.fills, levels)
    requires forall k :: 0 <= k < |w.fills| ==> 0.0 <= w.fills[k]
    requires AllAtLeast(levels, lo) && AllAtMost(levels, hi)
    ensures PaidWithin(w, lo, hi)
  {
    DotBounds(w.fills, levels, lo, hi);
  }

  /** Fill times price summed over levels priced in [lo, hi] lies between the total fill
      times `lo` and times `hi`. */
  lemma {:induction false} DotBounds(fills: seq<real>, levels: seq<Entry>, lo: real, hi: real)
    requires |fills| <= |levels|
    requires forall k :: 0 <= k < |fills| ==> 0.0 <= fills[k]
    requires AllAtLeast(levels, lo) && AllAtMost(levels, hi)
    ensures Total(fills) * lo <= Dot(fills, levels) <= Total(fills) * hi
    decreases |fills|
  {
    if fills != [] {
      var tail := levels[1..];
      assert AllAtLeast(tail, lo) && AllAtMost(tail, hi) by {
        forall k | 0 <= k < |tail| ensures lo <= tail[k].price <= hi {
          assert tail[k] == levels[k + 1];
        }
      }
      assert forall k :: 0 <= k < |fills[1..]| ==> 0.0 <= fills[1..][k] by {
        forall k | 0 <= k < |fills[1..]| ensures 0.0 <= fills[1..][k] {
          assert fills[1..][k] == fills[k + 1];
        }
      }
      DotBounds(fills[1..], tail, lo, hi);
      assert lo <= levels[0].price <= hi;
      StepBounds(fills[0], Total(fills[1..]), Total(fills), levels[0].price,
        Dot(fills[1..], tail), Dot(fills, levels), lo, hi);
    }
  }

  /** One level's contribution keeps the running bounds. */
  lemma StepBounds(fill: real, filledRest: real, filled: real, price: real, restCost: real,
                   cost: real, lo: real, hi: real)
    requires 0.0 <= fill && lo <= price <= hi
    requires filledRest * lo <= restCost <= filledRest * hi
    requires filled == fill + filledRest && cost == fill * price + restCost
    ensures filled * lo <= cost <= filled * hi
  {
    MulMonotone(fill, lo, price);
    MulMonotone(fill, price, hi);
    Distribute(fill, filledRest, lo);
    Distribute(fill, filledRest, hi);
  }

  lemma MulMonotone(a: real, x: real, y: real)
    requires 0.0 <= a && x <= y
    ensures a * x <= a * y
  {
    assert a * y - a * x == a * (y - x);
  }

  lemma Distribute(a: real, b: real, c: real)
    ensures (a + b) * c == a * c + b * c
  {
  }

  /** The accumulated cost is the sum of fill times price over the levels visited. */
  lemma {:induction false} WalkCostIsSumOfFills(levels: seq<Entry>, remaining: real)
    ensures Walk(levels, remaining).cost == Dot(Walk(levels, remaining).fills, levels)
    decreases |levels|
  {
    if levels != [] && 0.0 < remaining {
      var fill := Min(remaining, levels[0].quantity);
      WalkCostIsSumOfFills(levels[1..], remaining - fill);
      var fills := Walk(levels, remaining).fills;
      assert fills == [fill] + Walk(levels[1..], remaining - fill).fills;
      assert fills[1..] == Walk(levels[1..], remaining - fill).fills;
    }
  }

  /** One step of the walk: the first level's fill is paid, and the rest of the walk starts
      from what is left. */
  lemma WalkStep(levels: seq<Entry>, remaining: real)
    requires levels != [] && 0.0 < remaining
    ensures var fill := Min(remaining, levels[0].quantity);
      Walk(levels, remaining).cost == fill * levels[0].price + Walk(levels[1..], remaining - fill).cost
  {
  }

  /** A running cost plus the walk still to come stays equal to the whole walk's cost after one
      more forward step at level `entry == levels[i]`: the invariant of a loop over the levels. */
  lemma WalkAccumulates(levels: seq<Entry>, i: nat, entry: Entry, remaining: real, cost: real,
                        total: real, fill: real, newCost: real, newRemaining: real)
    requires i < |levels| && entry == levels[i] && 0.0 < remaining
    requires cost + Walk(levels[i..], remaining).cost == total
    requires fill == Min(remaining, entry.quantity)
    requires newCost == cost + fill * entry.price && newRemaining == remaining - fill
    ensures newCost + Walk(levels[i + 1..], newRemaining).cost == total
  {
    WalkStepAt(levels, i, remaining);
  }

  /** The same for the reverse traversal of the first `j` levels, at `entry == levels[j - 1]`. */
  lemma ReverseWalkAccumulates(levels: seq<Entry>, j: nat, entry: Entry, remaining: real, cost: real,
                               total: real, fill: real, newCost: real, newRemaining: real)
    requires 0 < j <= |levels| && entry == levels[j - 1] && 0.0 < remaining
    requires cost + Walk(Reverse(levels[..j]), remaining).cost == total
    requires fill == Min(remaining, entry.quantity)
    requires newCost == cost + fill * entry.price && newRemaining == remaining - fill
    ensures newCost + Walk(Reverse(levels[..j - 1]), newRemaining).cost == total
  {
    ReverseWalkStepAt(levels, j, remaining);
  }

  /** The forward traversal at position `i`: the level there is filled first, then the rest. */
  lemma WalkStepAt(levels: seq<Entry>, i: nat, remaining: real)
    requires i < |levels| && 0.0 < remaining
    ensures var fill := Min(remaining, levels[i].quantity);
      Walk(levels[i..], remaining).cost
        == fill * levels[i].price + Walk(levels[i + 1..], remaining - fill).cost
  {
    assert levels[i..][0] == levels[i] && levels[i..][1..] == levels[i + 1..];
    WalkStep(levels[i..], remaining);
  }

  /** The reverse traversal of the first `j` levels: level `j - 1` is filled first, then the
      reverse of the first `j - 1`. */
  lemma ReverseWalkStepAt(levels: seq<Entry>, j: nat, remaining: real)
    requires 0 < j <= |levels| && 0.0 < remaining
    ensures var fill := Min(remaining, levels[j - 1].quantity);
      Walk(Reverse(levels[..j]), remaining).cost
        == fill * levels[j - 1].price + Walk(Reverse(levels[..j - 1]), remaining - fill).cost
  {
    var rev := Reverse(levels[..j - 1]);
    assert levels[..j][..j - 1] == levels[..j - 1];
    assert Reverse(levels[..j]) == [levels[j - 1]] + rev;
    assert ([levels[j - 1]] + rev)[1..] == rev;
    WalkStep([levels[j - 1]] + rev, remaining);
  }

  /** One more entry of the list inserted. */
  lemma InsertAllSnoc(s: seq<Entry>, es: seq<Entry>, i: nat)
    requires i < |es|
    ensures InsertAll(s, es[..i + 1]) == Insert(InsertAll(s, es[..i]), es[i])
  {
    assert es[..i + 1][..i] == es[..i];
  }

  /** Prefix sums of quantities grow one entry at a time. */
  lemma SumSnoc(s: seq<Entry>, i: nat)
    requires i < |s|
    ensures SumQuantities(s[..i + 1]) == SumQuantities(s[..i]) + s[i].quantity
  {
    assert s[..i + 1][..i] == s[..i];
  }

  /** Nothing to fill: nothing is visited and nothing is paid. */
  lemma WalkNothing(levels: seq<Entry>, remaining: real)
    requires remaining <= 0.0
    ensures Walk(levels, remaining) == Walked(0.0, remaining, [])
  {
  }
}
