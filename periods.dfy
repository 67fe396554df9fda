/** Monthly periods (pandas `Period` with `freq="M"`).
    pandas stores a monthly period as the number of months elapsed since a fixed origin and
    adds an integer to a period by adding it to that count; the model does the same with the
    origin January of year 0. */
module Periods {
  datatype YearMonth = YearMonth(year: int, month: int)

  /** A calendar month of a calendar year. */
  type Period = p: YearMonth | 1 <= p.month <= 12 witness YearMonth(1970, 1)

  /** Months elapsed since January of year 0. */
  function Ordinal(p: Period): int
  {
    p.year * 12 + (p.month - 1)
  }

  /** The period whose ordinal is `n`. */
  function FromOrdinal(n: int): (p: Period)
    ensures Ordinal(p) == n
  {
    YearMonth(n / 12, n % 12 + 1)
  }

  /** Two periods with the same ordinal are the same period. */
  lemma {:induction false} OrdinalInjective(p: Period, q: Period)
    requires Ordinal(p) == Ordinal(q)
    ensures p == q
  {
    assert (p.year - q.year) * 12 == q.month - p.month;
  }

  /** `p + n`: the period `n` months after `p` (before it when `n` is negative). */
  function AddMonths(p: Period, n: int): (r: Period)
    ensures Ordinal(r) == Ordinal(p) + n
  {
    FromOrdinal(Ordinal(p) + n)
  }

  /** One month after December is January of the next year; otherwise the year stays and
      the month advances by one. */
  lemma {:induction false} NextMonthRollsOver(p: Period)
    ensures AddMonths(p, 1) == (if p.month == 12 then YearMonth(p.year + 1, 1)
                                else YearMonth(p.year, p.month + 1))
  {
    var expected: Period := if p.month == 12 then YearMonth(p.year + 1, 1)
                            else YearMonth(p.year, p.month + 1);
    assert Ordinal(expected) == Ordinal(p) + 1;
    OrdinalInjective(AddMonths(p, 1), expected);
  }

  /** Adding months step by step is adding them at once. */
  lemma {:induction false} AddMonthsCompose(p: Period, a: int, b: int)
    ensures AddMonths(AddMonths(p, a), b) == AddMonths(p, a + b)
  {
    OrdinalInjective(AddMonths(AddMonths(p, a), b), AddMonths(p, a + b));
  }

  /** Chronological order of periods. */
  predicate Before(p: Period, q: Period)
  {
    Ordinal(p) < Ordinal(q)
  }

  /** Chronological order is the (year, month) lexicographic order. */
  lemma {:induction false} BeforeIsCalendarOrder(p: Period, q: Period)
    ensures Before(p, q) <==> p.year < q.year || (p.year == q.year && p.month < q.month)
  {
    if p.year < q.year {
      assert Ordinal(p) <= p.year * 12 + 11 < q.year * 12 <= Ordinal(q);
    } else if q.year < p.year {
      assert Ordinal(q) <= q.year * 12 + 11 < p.year * 12 <= Ordinal(p);
    }
  }
}
