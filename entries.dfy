/** One price level of an order book, and the entry's own ordering. The aggregate maps do not
    use this ordering: they are keyed by the price alone and compare keys with `std::less`. */
module Entries {

  /** A price level quoted by one exchange. Both source constructors (copying and moving)
      store the three values unchanged, which is what this datatype constructor does. */
  datatype Entry = Entry(price: real, quantity: real, exchange: string)

  /** The entry's `operator<`: prices are compared, nothing else. */
  predicate Less(a: Entry, b: Entry)
  {
    a.price < b.price
  }

  /** Neither entry orders before the other. */
  predicate Equivalent(a: Entry, b: Entry)
  {
    !Less(a, b) && !Less(b, a)
  }

  /** Constructing, copying and assigning an entry keep all three fields. */
  lemma ConstructionKeepsFields(p: real, q: real, e: string)
    ensures var r := Entry(p, q, e);
      r.price == p && r.quantity == q && r.exchange == e
    ensures var r := Entry(p, q, e); var copy := r;
      copy == r && copy.price == p && copy.quantity == q && copy.exchange == e
  {
  }

  /** Quantity and exchange never influence the ordering. */
  lemma LessIsPriceOnly(a: Entry, b: Entry, qa: real, qb: real, ea: string, eb: string)
    ensures Less(a, b) == Less(Entry(a.price, qa, ea), Entry(b.price, qb, eb))
  {
  }

  /** `Less` is a strict weak order: irreflexive, asymmetric, transitive, and its
      incomparability relation is transitive too. */
  lemma LessIsStrictWeakOrder(a: Entry, b: Entry, c: Entry)
    ensures !Less(a, a)
    ensures Less(a, b) ==> !Less(b, a)
    ensures Less(a, b) && Less(b, c) ==> Less(a, c)
    ensures Equivalent(a, b) && Equivalent(b, c) ==> Equivalent(a, c)
  {
  }

  /** Two entries are equivalent exactly when their prices are equal, whatever their
      quantities and exchanges. */
  lemma EquivalentIffSamePrice(a: Entry, b: Entry)
    ensures Equivalent(a, b) <==> a.price == b.price
  {
  }
}
