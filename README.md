# Barber shop queue, plans and cash flow — a Dafny model

The shop runs two Streamlit scripts with the same behaviour over two stores:
`app.py` uses a hosted Supabase database and `barber.py` a local SQLite file.
Both have a kiosk where walk-in customers check in by name. Both have an admin
dashboard with three tabs:

- the queue of visits (`cortes`), where the barber marks a visit as finished
  ("Finalizar Corte") and as paid ("Receber");
- the monthly subscription plans (`planos`), saved from a form, listed by due
  date with a coloured badge, and deleted by id;
- the cash flow: visits this month, revenue received this month, the average
  ticket, and a ledger of paid visits.

This project models both stores as one in-memory store and proves what each
operation does to it.

- `seqs.dfy` (`Seqs`): row filtering (`WHERE`), `SUM`, and sorting (`ORDER BY`).
  Sorting is an insertion sort, proved to give a sorted permutation.
- `clock.dfy` (`Clock`): `datetime` values and their order. It also has the two
  month starts: the one `app.py` computes as written and the intended one.
- `timestamp_text.dfy` (`TimestampText`): `barber.py` stores arrivals as
  `"%Y-%m-%d %H:%M:%S"` text. SQLite compares text character by character.
  This module proves that, on these fixed-width texts, text order is time
  order. It also proves that the filter `chegada >= 'YYYY-MM-01'` selects
  exactly the arrivals in the current month or later.
- `visits.dfy` (`Visits`): visit rows and the `VisitTable` class (the rows and
  the `AUTOINCREMENT` counter). It covers check-in, the two updates by id, and
  the queue listing.
- `plans.dfy` (`Plans`): plan rows, the badge classifier, and the `PlanTable`
  class with save, delete and the due-date listing.
- `finance.dfy` (`Finance`): month count, revenue, average ticket and ledger.
  It proves that the two backends' month filters agree once the `app.py` month
  start is corrected.

Money is in integer cents, so 35.00 is `3500`. The average ticket is a `real`.
Plan due dates and "today" are day numbers, so `due - today` is Python's
`(venc - hoje).days`. The clock is a parameter: every operation receives `now`
or `today`.

Three behaviours of the code worth stating:

- A name made only of blanks is not empty. Both scripts accept it and store it
  (`Visits.BlankNameIsCheckedIn`).
- Updating or deleting an id that no row has raises no error. It changes
  nothing (`Visits.UnknownIdChangesNothing`, `Plans.WithoutPlan`).
- "Finalizar Corte" overwrites `saida` unconditionally. The button is simply
  not offered once `saida` is set.

On the SQLite backend the stored arrival text keeps whole seconds only. The
kiosk there passes `now` with its microseconds dropped, and
`Finance.NewestFirstIsTextOrder` proves, from `TimestampText.FormatOrder`,
that the text order is then the order that `Visits.Queue` and `Finance.Ledger`
use.

## Model

| member | source | states |
|---|---|---|
| `Visits.VisitTable.constructor` | barber.py:62-68 | An empty `cortes` table whose counter has issued no id. |
| `Visits.VisitTable.CheckIn` | app.py:61-82 | An empty name only warns and changes nothing. Any other name, blanks included, appends exactly one row with the next id. That id is greater than every id already in the table. |
| `Visits.NewVisit` | app.py:67-68 | A new visit has the given name and arrival, is unpaid, costs 35.00 and has no departure. |
| `Visits.BlankNameIsCheckedIn` | barber.py:106-110 | A name of three blanks passes the emptiness test and is stored as a visit. |
| `Visits.IdsAreUnique` | barber.py:63 | In a well-formed table no two rows share an id, so an update by id reaches at most one row. |
| `Visits.WithDeparture` | barber.py:151-153 | `SET saida WHERE id`: rows with another id are unchanged. The matching row gets the departure and keeps every other field. |
| `Visits.WithPaid` | barber.py:160-163 | `SET pago WHERE id`: rows with another id are unchanged. The matching row becomes paid and keeps every other field. |
| `Visits.UnknownIdChangesNothing` | barber.py:151-164 | Updating an id that no row has leaves the table exactly as it was. |
| `Visits.PaidAndDepartureCommute` | app.py:124-141 | Marking paid and then departed gives the same table as marking departed and then paid. |
| `Visits.OffersFinish` | app.py:124-128 | "Finalizar Corte" is shown exactly when pressing it would change the row, whatever time it stamps, that is while `saida` is empty. |
| `Visits.OffersReceive` | barber.py:161-162 | "Receber" is shown exactly when pressing it would change the row, that is while the visit is unpaid. |
| `Visits.UpdatesAreMonotone` | app.py:124-141 | No update clears a departure or a payment. After an update the targeted row no longer offers that button. |
| `Visits.DepartureKeepsWellFormed` | barber.py:151-153 | Stamping a departure keeps ids, prices and arrivals, so the table invariant holds. |
| `Visits.PaymentKeepsWellFormed` | barber.py:162-163 | Marking a visit paid keeps ids, prices and arrivals, so the table invariant holds. |
| `Visits.VisitTable.FinishCut` | app.py:128-131 | "Finalizar Corte" replaces the rows by `WithDeparture` of the old rows and keeps the counter. |
| `Visits.VisitTable.Receive` | app.py:138-141 | "Receber" replaces the rows by `WithPaid` of the old rows and keeps the counter. |
| `Visits.Queue` | app.py:106 | The queue lists every row exactly once, newest arrival first. |
| `Clock.AppMonthStart` | app.py:212-213 | The month start as written: day 1 at 00:00:00, but with `now`'s microsecond. |
| `Clock.MonthStart` | barber.py:228-229 | The intended month start. For every valid instant, `t >= MonthStart(now)` holds exactly when `t` is in `now`'s month or later. |
| `Clock.AppMonthStartSkipsFirstInstant` | app.py:213 | When `now`'s microsecond is not 0, the month's first instant is in the month but not `>=` the written start. |
| `Clock.AppMonthStartDiffers` | app.py:213-216 | The written filter accepts exactly the instants of this month or later, minus those in the first `now.micro` microseconds of day 1. |
| `TimestampText.LexLess` | barber.py:232-233 | SQLite's character-by-character text comparison: no text is below itself, and a proper prefix sorts before the text it begins. |
| `TimestampText.Pad` | barber.py:108 | A zero-padded field has exactly `width` characters, all decimal digits. |
| `TimestampText.Format` | barber.py:108 | The arrival text is 19 characters, with `-`, `-`, blank, `:`, `:` at positions 4, 7, 10, 13 and 16. |
| `TimestampText.MonthStartText` | barber.py:229 | The month-start text is 10 characters and ends in `01`. |
| `TimestampText.PadOrder` | barber.py:108 | Two zero-padded numbers of one width compare as text exactly as they compare as numbers, and are equal exactly when the numbers are. |
| `TimestampText.DateTextOrder` | barber.py:229 | Two `%Y-%m-%d` texts compare as their (year, month, day) triples, and are equal exactly when the triples are. |
| `TimestampText.ClockTextOrder` | barber.py:108 | Two `%H:%M:%S` texts compare as their (hour, minute, second) triples. |
| `TimestampText.FormatOrder` | barber.py:129 | `ORDER BY chegada` on the stored texts is the order of the arrival instants, to the second. |
| `TimestampText.MonthFilterText` | barber.py:229-232 | `chegada >= 'YYYY-MM-01'` holds exactly when the arrival is in `now`'s month or later. |
| `Plans.Classify` | app.py:182-195 | A status other than "Ativo" gives gray with the status text. For "Ativo": days < 0 gives red "ATRASADO", 0 <= days <= 3 gives orange "Vence em Breve", and more than 3 gives green with the status text. |
| `Plans.ClassifyBoundaries` | barber.py:203-211 | Due today and due in exactly 3 days are orange. Due in 4 days is green. One day late is red. A cancelled plan due today is gray "Cancelado". |
| `Plans.UrgencyGrowsWithTime` | app.py:187-193 | As `today` advances, a plan's badge never becomes less urgent. |
| `Plans.EarlierDueIsMoreUrgent` | barber.py:196-209 | Of two plans with one status, the one due first is at least as urgent. |
| `Plans.PlanList` | app.py:174 | The plan list holds every plan exactly once, earliest due date first. |
| `Plans.ListingShowsMostUrgentFirst` | barber.py:190-216 | Down the list, badges of plans with one status never become more urgent: overdue first, then due soon. |
| `Plans.WithoutPlan` | barber.py:219 | `DELETE WHERE id`: the result holds exactly the plans with another id. A missing id leaves the table unchanged. |
| `Plans.DeleteKeepsWellFormed` | barber.py:219 | A delete keeps ids ascending and statuses valid. |
| `Plans.DeleteRemovesExactlyOne` | app.py:202-204 | Deleting the id of the k-th plan removes that plan only and keeps the others in order. |
| `Plans.DeleteIsIdempotent` | app.py:203 | Deleting the same id again changes nothing. |
| `Plans.PlanTable.constructor` | barber.py:70-75 | An empty `planos` table whose counter has issued no id. |
| `Plans.PlanTable.Save` | app.py:162-168 | An empty name saves nothing. Otherwise it appends exactly one plan with the form's date and status and an id above every earlier one. |
| `Plans.PlanTable.Delete` | barber.py:218-219 | The trash button replaces the rows by `WithoutPlan` of the old rows. The counter is unchanged. |
| `Plans.DeleteThenSave` | barber.py:71 | `AUTOINCREMENT`: after a plan is deleted its id is gone, and the next saved plan never gets it back. |
| `Finance.CurrentMonth` | app.py:216 | The hosted month filter with the corrected start: a visit with a valid arrival passes exactly when it arrived in `now`'s month or later. |
| `Finance.CurrentMonthAsWritten` | app.py:213-216 | The hosted month filter as written: a visit passes exactly when it arrived in `now`'s month or later, except in the first `now.micro` microseconds of day 1. |
| `Finance.CurrentMonthText` | barber.py:229-232 | The SQLite `WHERE chegada >= 'YYYY-MM-01'`: a visit passes exactly when its arrival is valid and in `now`'s month or later. |
| `Finance.PaidAnd` | app.py:219 | `... AND pago = 1` narrows a month filter: it selects only rows the month filter selects, and among those exactly the paid ones. |
| `Finance.MonthCount` | barber.py:232 | The count is the number of row positions the month filter selects, so a row stored twice counts twice. It never exceeds the number of visits. |
| `Finance.SqlSum` | barber.py:233 | `SUM` is `NULL` exactly over no rows, and otherwise the total. |
| `Finance.MonthRevenue` | barber.py:233-235 | Revenue is the total price of the paid visits this month, and 0 when there are none. |
| `Finance.AverageTicket` | app.py:226 | Zero when there are no visits. Otherwise the value that, times the count, gives the revenue. |
| `Finance.MonthMetrics` | barber.py:237-240 | The three figures are the month count and the month revenue, with the average 0 when the count is 0 and otherwise the revenue divided by the count. |
| `Finance.RevenueIsPricePerPaidVisit` | app.py:219-221 | Revenue is 35.00 per paid visit of the month. |
| `Finance.RevenueZeroIffNothingPaid` | barber.py:233-235 | Revenue is 0 exactly when no visit of the month is paid. |
| `Finance.AverageTicketWithinPrice` | barber.py:240 | Revenue is at most 35.00 per visit of the month, so the average ticket is between 0 and 35.00. |
| `Finance.BackendsAgree` | barber.py:229-233 | On the same well-formed rows, the SQLite text filter selects the same visits as the hosted filter with the corrected month start, so their figures agree. |
| `Finance.AsWrittenMissesFirstInstantVisit` | app.py:213-221 | With the written month start, a paid visit at the month's first instant is counted in neither the count nor the revenue. The intended start counts it in both. |
| `Finance.NewestFirstIsTextOrder` | barber.py:129 | For arrivals stored to the second, one visit comes at or before another in newest-first order exactly when its stored arrival text is not below the other's. |
| `Finance.Ledger` | app.py:231 | The ledger holds every paid visit of every month, as often as the table does, and no unpaid one, newest first. |
| `Finance.LedgerIsNotMonthScoped` | barber.py:244 | A paid visit from an earlier month appears in the ledger but leaves this month's figures unchanged. |
| `Finance.TwoVisitsOnePaid` | barber.py:232-240 | Two visits this month, one of them paid, give 2 visits, 35.00 received and an average ticket of 17.50. |

## Left out

- Every Streamlit element: CSS, tabs, columns, toasts, `st.rerun`,
  `time.sleep`, the sidebar mode switch, and the date formatting for display.
  Clearing the kiosk's text field after a check-in is also out.
- The Supabase client, its secrets and HTTP calls. SQLite connection handling
  in `run_query` and `init_db`. Exceptions they raise, such as the `st.error`
  path of the hosted check-in. The store is an in-memory class.
- pandas DataFrames and `pd.to_datetime`. The ledger returns whole visit rows
  rather than the four selected columns.
- Floating-point money. Amounts are integer cents and the average ticket is an
  exact `real`, so display rounding to two decimals is not modelled.
- `datetime.now()` and `date.today()` are parameters. Nothing is assumed about
  successive readings, for example that arrivals increase.
- Converting calendar dates to the day numbers that plans use.
- Concurrent kiosks, and the count and sum queries seeing different data.
- The `obs` column of `planos`. No code writes it.
- `Visits.Queue`: rows that tie on the sort key come out in one fixed order.
  The databases leave that order unspecified, so the contract states only
  sortedness and permutation.
- `Plans.PlanList`: the same as `Visits.Queue` for plans due on the same day.
- `TimestampText.Pad`: four digits for every year. Some platforms do not pad
  `%Y` for years below 1000.
- SQLite type affinity. The arrival column is declared `DATETIME`, but the text
  written there is not a number. The model assumes that the text is stored and
  compared as text.
- The column type of `chegada` in the hosted database is not part of the
  source. The model compares instants there.

## Findings

| source | as written | input that shows it | evidently intended | confidence | as-written member | corrected member |
|---|---|---|---|---|---|---|
| app.py:213 | The month start resets day, hour, minute and second but keeps `now`'s microsecond. The month filter therefore starts `now.micro` microseconds into the month. | `now` with microsecond 500000, and a paid visit at 00:00:00.000000 on the 1st of that month. The visit is left out of both the count and the revenue. | The first instant of the month, with microsecond 0, as the SQLite script gets from a date-only bound | not executed | `Clock.AppMonthStartSkipsFirstInstant` | `Clock.MonthStart` |
