/** The "Financeiro" tab: visits this month, revenue received this month,
    average ticket, and the ledger of paid visits. Amounts are in cents. */
module Finance {
  import opened Seqs
  import opened Clock
  import opened Visits
  import TimestampText

  /** The month filter of the hosted backend, with the month start as
      intended: `chegada >= <first instant of the month>`. */
  function CurrentMonth(now: DateTime): (inMonth: Visit -> bool)
    requires Clock.Valid(now)
    ensures forall v: Visit :: Clock.Valid(v.arrival) ==> (inMonth(v) <==> InMonthOrLater(v.arrival, now))
  {
    (v: Visit) => AtOrAfter(v.arrival, MonthStart(now))
  }

  /** The month filter of the hosted backend with the month start exactly as
      written, keeping the microsecond of `now`. */
  function CurrentMonthAsWritten(now: DateTime): (inMonth: Visit -> bool)
    ensures Clock.Valid(now) ==> forall v: Visit :: Clock.Valid(v.arrival) ==>
              (inMonth(v) <==> InMonthOrLater(v.arrival, now) && !InFirstMicros(v.arrival, now))
  {
    var inMonth := (v: Visit) => AtOrAfter(v.arrival, AppMonthStart(now));
    assert Clock.Valid(now) ==> forall v: Visit :: Clock.Valid(v.arrival) ==>
              (inMonth(v) <==> InMonthOrLater(v.arrival, now) && !InFirstMicros(v.arrival, now)) by {
      if Clock.Valid(now) {
        forall v: Visit | Clock.Valid(v.arrival)
          ensures inMonth(v) <==> InMonthOrLater(v.arrival, now) && !InFirstMicros(v.arrival, now)
        {
          AppMonthStartDiffers(now, v.arrival);
        }
      }
    }
    inMonth
  }

  /** The month filter of the SQLite backend: `chegada >= 'YYYY-MM-01'` on
      the stored arrival text. */
  function CurrentMonthText(now: DateTime): (inMonth: Visit -> bool)
    requires Clock.Valid(now)
    ensures forall v: Visit :: inMonth(v) <==> Clock.Valid(v.arrival) && InMonthOrLater(v.arrival, now)
  {
    var inMonth := (v: Visit) => Clock.Valid(v.arrival) &&
      !TimestampText.LexLess(TimestampText.Format(v.arrival), TimestampText.MonthStartText(now));
    assert forall v: Visit :: inMonth(v) <==> Clock.Valid(v.arrival) && InMonthOrLater(v.arrival, now) by {
      forall v: Visit | Clock.Valid(v.arrival)
        ensures inMonth(v) <==> InMonthOrLater(v.arrival, now)
      {
        TimestampText.MonthFilterText(v.arrival, now);
      }
    }
    inMonth
  }

  /** The paid rows among those `inMonth` selects: `... AND pago = 1`. */
  function PaidAnd(inMonth: Visit -> bool): (paidInMonth: Visit -> bool)
    ensures forall v :: paidInMonth(v) ==> inMonth(v)
    ensures forall v :: inMonth(v) ==> (paidInMonth(v) <==> v.paid)
  {
    (v: Visit) => v.paid && inMonth(v)
  }

  function Prices(rows: seq<Visit>): (ps: seq<int>)
    ensures |ps| == |rows|
    ensures forall i :: 0 <= i < |rows| ==> ps[i] == rows[i].price
  {
    seq(|rows|, i requires 0 <= i < |rows| => rows[i].price)
  }

  /** SQL `SUM`: `NULL` over no rows. */
  function SqlSum(xs: seq<int>): (r: Option<int>)
    ensures r == None <==> xs == []
    ensures r.Some? ==> r.value == Sum(xs)
  {
    if xs == [] then None else Some(Sum(xs))
  }

  /** `COUNT(*) ... WHERE chegada >= inicio_mes`: one per row the filter
      selects, so a row stored twice counts twice. */
  function MonthCount(rows: seq<Visit>, inMonth: Visit -> bool): (n: nat)
    ensures n == |set i | 0 <= i < |rows| && inMonth(rows[i])|
    ensures n <= |rows|
  {
    FilterCountsPositions(rows, inMonth);
    assert Positions(rows, inMonth) == set i | 0 <= i < |rows| && inMonth(rows[i]);
    |Filter(rows, inMonth)|
  }

  /** `SUM(valor) ... AND pago = 1`, with `NULL` (no such row) read as 0.
      The hosted backend's `.sum() if not empty else 0.0` is the same total. */
  function MonthRevenue(rows: seq<Visit>, inMonth: Visit -> bool): (r: int)
    ensures Filter(rows, PaidAnd(inMonth)) == [] ==> r == 0
    ensures r == Sum(Prices(Filter(rows, PaidAnd(inMonth))))
  {
    match SqlSum(Prices(Filter(rows, PaidAnd(inMonth))))
    case None => 0
    case Some(total) => total
  }

  /** Revenue over visits, guarded to 0 when there are no visits. */
  function AverageTicket(revenue: int, count: nat): (r: real)
    ensures count == 0 ==> r == 0.0
    ensures count > 0 ==> r * (count as real) == revenue as real
  {
    if count > 0 then (revenue as real) / (count as real) else 0.0
  }

  /** The three figures at the top of the tab. */
  datatype Metrics = Metrics(count: nat, revenue: int, average: real)

  function MonthMetrics(rows: seq<Visit>, inMonth: Visit -> bool): (m: Metrics)
    ensures m.count == MonthCount(rows, inMonth) && m.revenue == MonthRevenue(rows, inMonth)
    ensures m.count <= |rows|
    ensures m.count == 0 ==> m.average == 0.0
    ensures m.count > 0 ==> m.average == (m.revenue as real) / (m.count as real)
  {
    var count := MonthCount(rows, inMonth);
    var revenue := MonthRevenue(rows, inMonth);
    Metrics(count, revenue, AverageTicket(revenue, count))
  }

  /** The ledger: `WHERE pago = 1 ORDER BY chegada DESC`, every month. */
  function Ledger(rows: seq<Visit>): (r: seq<Visit>)
    ensures forall v :: v in r <==> v in rows && v.paid
    ensures forall v :: multiset(r)[v] == if v.paid then multiset(rows)[v] else 0
    ensures SortedBy(r, NewestFirst)
  {
    var paid := Filter(rows, (v: Visit) => v.paid);
    FilterMultiplicity(rows, (v: Visit) => v.paid);
    assert forall v :: v in paid <==> v in multiset(paid);
    Queue(paid)
  }

  /** On the SQLite backend arrivals are stored to the second, and there the
      newest-first order of the queue and the ledger is the reverse of the
      text order of the stored arrivals. */
  lemma NewestFirstIsTextOrder(a: Visit, b: Visit)
    requires Clock.Valid(a.arrival) && Clock.Valid(b.arrival)
    requires a.arrival.micro == 0 && b.arrival.micro == 0
    ensures NewestFirst(a, b) <==> !TimestampText.LexLess(TimestampText.Format(a.arrival), TimestampText.Format(b.arrival))
  {
    TimestampText.FormatOrder(a.arrival, b.arrival);
    assert a.arrival.(micro := 0) == a.arrival && b.arrival.(micro := 0) == b.arrival;
  }

  /** A filter that implies another selects no more rows. */
  lemma {:induction false} FilterCountMonotone(rows: seq<Visit>, f: Visit -> bool, g: Visit -> bool)
    requires forall v :: f(v) ==> g(v)
    ensures |Filter(rows, f)| <= |Filter(rows, g)|
  {
    if rows != [] {
      FilterCountMonotone(rows[1..], f, g);
    }
  }

  /** Every visit is priced 35.00, so this month's revenue is 35.00 per paid visit. */
  lemma RevenueIsPricePerPaidVisit(rows: seq<Visit>, lastId: nat, inMonth: Visit -> bool)
    requires WellFormed(rows, lastId)
    ensures MonthRevenue(rows, inMonth) == DefaultPrice * |Filter(rows, PaidAnd(inMonth))|
  {
    var paid := Filter(rows, PaidAnd(inMonth));
    forall i | 0 <= i < |paid| ensures Prices(paid)[i] == DefaultPrice {
      assert paid[i] in rows;
    }
    SumOfConstant(Prices(paid), DefaultPrice);
  }

  /** Revenue is 0 exactly when no visit of the month has been paid. */
  lemma RevenueZeroIffNothingPaid(rows: seq<Visit>, lastId: nat, inMonth: Visit -> bool)
    requires WellFormed(rows, lastId)
    ensures MonthRevenue(rows, inMonth) == 0 <==> forall v :: v in rows && inMonth(v) ==> !v.paid
  {
    RevenueIsPricePerPaidVisit(rows, lastId, inMonth);
    var paid := Filter(rows, PaidAnd(inMonth));
    if paid != [] {
      assert paid[0] in paid;
    }
  }

  /** The revenue never exceeds 35.00 per visit of the month, so the average
      ticket lies between 0 and the visit price. */
  lemma AverageTicketWithinPrice(rows: seq<Visit>, lastId: nat, inMonth: Visit -> bool)
    requires WellFormed(rows, lastId)
    ensures 0 <= MonthRevenue(rows, inMonth) <= DefaultPrice * MonthCount(rows, inMonth)
    ensures 0.0 <= MonthMetrics(rows, inMonth).average <= DefaultPrice as real
  {
    RevenueIsPricePerPaidVisit(rows, lastId, inMonth);
    FilterCountMonotone(rows, PaidAnd(inMonth), inMonth);
    var paidCount, count := |Filter(rows, PaidAnd(inMonth))|, MonthCount(rows, inMonth);
    assert DefaultPrice * paidCount <= DefaultPrice * count;
    AverageWithinBound(MonthRevenue(rows, inMonth), count, DefaultPrice);
  }

  /** A revenue of at most `bound` per visit averages to at most `bound`. */
  lemma AverageWithinBound(revenue: int, count: nat, bound: nat)
    requires 0 <= revenue <= bound * count
    ensures 0.0 <= AverageTicket(revenue, count) <= bound as real
  {
    if count > 0 {
      var c, r := count as real, AverageTicket(revenue, count);
      assert r * c == revenue as real;
      assert (bound * count) as real == bound as real * c;
    }
  }

  /** On the same rows, the SQLite text filter selects the same visits as the
      hosted filter with the corrected month start, so their figures agree. */
  lemma BackendsAgree(rows: seq<Visit>, lastId: nat, now: DateTime)
    requires WellFormed(rows, lastId) && Clock.Valid(now)
    ensures Filter(rows, CurrentMonthText(now)) == Filter(rows, CurrentMonth(now))
    ensures MonthMetrics(rows, CurrentMonthText(now)) == MonthMetrics(rows, CurrentMonth(now))
  {
    FilterCongruent(rows, CurrentMonthText(now), CurrentMonth(now));
    FilterCongruent(rows, PaidAnd(CurrentMonthText(now)), PaidAnd(CurrentMonth(now)));
  }

  /** The month start as written drops a visit made at the first instant of
      the month from both the count and the revenue whenever the clock's
      microsecond is not 0. */
  lemma AsWrittenMissesFirstInstantVisit(now: DateTime, v: Visit)
    requires Clock.Valid(now) && now.micro > 0 && v.paid
    requires v.arrival == MonthStart(now)
    ensures MonthCount([v], CurrentMonthAsWritten(now)) == 0
    ensures MonthRevenue([v], CurrentMonthAsWritten(now)) == 0
    ensures MonthCount([v], CurrentMonth(now)) == 1
    ensures MonthRevenue([v], CurrentMonth(now)) == v.price
  {
    AppMonthStartSkipsFirstInstant(now);
    assert [v][1..] == [];
    assert Filter([v], CurrentMonth(now)) == [v];
    assert Filter([v], PaidAnd(CurrentMonth(now))) == [v];
    assert Prices([v]) == [v.price];
    assert Sum([v.price]) == v.price + Sum([]);
    assert Filter([v], CurrentMonthAsWritten(now)) == [];
    assert Filter([v], PaidAnd(CurrentMonthAsWritten(now))) == [];
  }

  /** The ledger is not limited to the month: a paid visit from an earlier
      month is listed in it, yet adds nothing to this month's figures. */
  lemma LedgerIsNotMonthScoped(rows: seq<Visit>, v: Visit, now: DateTime)
    requires Clock.Valid(now) && Clock.Valid(v.arrival)
    requires v.paid && !InMonthOrLater(v.arrival, now)
    ensures v in Ledger(rows + [v])
    ensures MonthMetrics(rows + [v], CurrentMonth(now)) == MonthMetrics(rows, CurrentMonth(now))
  {
    assert [v][1..] == [];
    FilterAppend(rows, [v], CurrentMonth(now));
    FilterAppend(rows, [v], PaidAnd(CurrentMonth(now)));
    assert Filter([v], CurrentMonth(now)) == [];
    assert Filter([v], PaidAnd(CurrentMonth(now))) == [];
    assert Filter(rows, CurrentMonth(now)) + [] == Filter(rows, CurrentMonth(now));
    assert Filter(rows, PaidAnd(CurrentMonth(now))) + [] == Filter(rows, PaidAnd(CurrentMonth(now)));
  }

  /** Two check-ins this month, one of them paid: 2 visits, 35.00 received,
      average ticket 17.50. */
  lemma TwoVisitsOnePaid(now: DateTime, a: Visit, b: Visit)
    requires Clock.Valid(now) && Clock.Valid(a.arrival) && Clock.Valid(b.arrival)
    requires InMonthOrLater(a.arrival, now) && InMonthOrLater(b.arrival, now)
    requires a.paid && !b.paid && a.price == DefaultPrice && b.price == DefaultPrice
    ensures MonthMetrics([a, b], CurrentMonth(now)) == Metrics(2, 3500, 1750.0)
  {
    assert [a, b][1..] == [b] && [b][1..] == [];
    assert Filter([a, b], CurrentMonth(now)) == [a, b];
    assert Filter([a, b], PaidAnd(CurrentMonth(now))) == [a];
    assert Prices([a]) == [3500];
    assert Sum([3500]) == 3500 + Sum([]);
    assert AverageTicket(3500, 2) == 1750.0;
  }
}
