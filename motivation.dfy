/**
 The rotating motivational message: an index into a fixed list of quotes,
 advanced by one (wrapping around) on every timer tick.
 */
module Motivation {

  /** Length of the fixed quote list. */
  const QuoteCount: nat := 8

  /** One timer tick: `(prev + 1) % motivationQuotes.length`. */
  function NextQuote(q: nat): (r: nat)
    ensures r < QuoteCount
    ensures q < QuoteCount ==> if q == QuoteCount - 1 then r == 0 else r == q + 1
  {
    (q + 1) % QuoteCount
  }

  /** The index after `ticks` ticks starting from `q`. */
  function QuoteAfter(q: nat, ticks: nat): nat
  {
    if ticks == 0 then q else NextQuote(QuoteAfter(q, ticks - 1))
  }

  /** Ticking from a valid index walks the list cyclically. */
  lemma {:induction false} QuoteAfterTicks(q: nat, ticks: nat)
    requires q < QuoteCount
    ensures QuoteAfter(q, ticks) == (q + ticks) % QuoteCount
  {
    if ticks > 0 {
      QuoteAfterTicks(q, ticks - 1);
    }
  }

  /** Every quote is shown once per cycle of eight ticks, and the cycle repeats. */
  lemma QuoteCycle(q: nat)
    requires q < QuoteCount
    ensures QuoteAfter(q, QuoteCount) == q
    ensures forall n :: 0 < n < QuoteCount ==> QuoteAfter(q, n) != q
  {
    QuoteAfterTicks(q, QuoteCount);
    forall n | 0 < n < QuoteCount
      ensures QuoteAfter(q, n) != q
    {
      QuoteAfterTicks(q, n);
    }
  }
}
