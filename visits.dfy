/** The visit table (`cortes`): one row per kiosk check-in, later marked as
    departed ("Finalizar Corte") and as paid ("Receber") from the admin queue. */
module Visits {
  import opened Seqs
  import opened Clock

  /** The price written into every new visit, in cents (35.00). */
  const DefaultPrice: int := 3500

  /** A row of `cortes`: `id`, `cliente`, `chegada`, `saida`, `pago`, `valor`. */
  datatype Visit = Visit(id: nat, customer: string, arrival: DateTime,
                         departure: Option<DateTime>, paid: bool, price: int)

  /** Insertion order of rows: ids handed out by the counter grow. */
  predicate IdBefore(a: Visit, b: Visit)
  {
    a.id < b.id
  }

  /** The table invariant: ids strictly ascend in insertion order and were all
      issued by the counter `lastId`; every price is the default; every arrival
      is a real instant. */
  ghost predicate WellFormed(rows: seq<Visit>, lastId: nat)
  {
    SortedBy(rows, IdBefore) &&
    forall v :: v in rows ==>
      1 <= v.id <= lastId && v.price == DefaultPrice && Clock.Valid(v.arrival)
  }

  /** In a well-formed table no two rows share an id, so an update by id
      reaches at most one row. */
  lemma IdsAreUnique(rows: seq<Visit>, lastId: nat, i: int, j: int)
    requires WellFormed(rows, lastId)
    requires 0 <= i < |rows| && 0 <= j < |rows| && rows[i].id == rows[j].id
    ensures i == j
  {
  }

  /** The row a check-in writes: `pago = False`, `valor = 35.00`, no `saida`. */
  function NewVisit(id: nat, name: string, now: DateTime): (v: Visit)
    ensures v.id == id && v.customer == name && v.arrival == now
    ensures v.departure == None && !v.paid && v.price == DefaultPrice
  {
    Visit(id, name, now, None, false, DefaultPrice)
  }

  /** `UPDATE cortes SET saida = t WHERE id = id`. */
  function WithDeparture(rows: seq<Visit>, id: nat, t: DateTime): (r: seq<Visit>)
    ensures |r| == |rows|
    ensures forall i :: 0 <= i < |rows| && rows[i].id != id ==> r[i] == rows[i]
    ensures forall i :: 0 <= i < |rows| && rows[i].id == id ==>
              r[i].departure == Some(t) && r[i].(departure := rows[i].departure) == rows[i]
  {
    seq(|rows|, i requires 0 <= i < |rows| =>
      if rows[i].id == id then rows[i].(departure := Some(t)) else rows[i])
  }

  /** `UPDATE cortes SET pago = True WHERE id = id`. */
  function WithPaid(rows: seq<Visit>, id: nat): (r: seq<Visit>)
    ensures |r| == |rows|
    ensures forall i :: 0 <= i < |rows| && rows[i].id != id ==> r[i] == rows[i]
    ensures forall i :: 0 <= i < |rows| && rows[i].id == id ==>
              r[i].paid && r[i].(paid := rows[i].paid) == rows[i]
  {
    seq(|rows|, i requires 0 <= i < |rows| =>
      if rows[i].id == id then rows[i].(paid := true) else rows[i])
  }

  /** An id that no row carries matches nothing: the update changes no row and
      reports no error. */
  lemma {:induction false} UnknownIdChangesNothing(rows: seq<Visit>, id: nat, t: DateTime)
    requires forall v :: v in rows ==> v.id != id
    ensures WithDeparture(rows, id, t) == rows
    ensures WithPaid(rows, id) == rows
  {
    assert forall i :: 0 <= i < |rows| ==> rows[i] in rows;
  }

  /** Marking a visit paid and marking it departed lead to the same table in
      either order. */
  lemma {:induction false} PaidAndDepartureCommute(rows: seq<Visit>, id: nat, t: DateTime)
    ensures WithPaid(WithDeparture(rows, id, t), id) == WithDeparture(WithPaid(rows, id), id, t)
  {
    var a, b := WithPaid(WithDeparture(rows, id, t), id), WithDeparture(WithPaid(rows, id), id, t);
    assert |a| == |b|;
    forall i | 0 <= i < |a| ensures a[i] == b[i] {
      if rows[i].id == id {
        assert a[i] == rows[i].(departure := Some(t), paid := true);
      }
    }
  }

  /** "Finalizar Corte" is offered only while `saida` is empty: exactly when
      pressing it changes the row, whatever the time it stamps. */
  predicate OffersFinish(v: Visit)
    ensures OffersFinish(v) <==> forall t :: WithDeparture([v], v.id, t) != [v]
  {
    if v.departure == None then
      assert forall t :: WithDeparture([v], v.id, t)[0].departure == Some(t);
      true
    else
      assert WithDeparture([v], v.id, v.departure.value) == [v];
      false
  }

  /** "Receber" is offered only while the visit is unpaid: exactly when
      pressing it changes the row. */
  predicate OffersReceive(v: Visit)
    ensures OffersReceive(v) <==> WithPaid([v], v.id) != [v]
  {
    if !v.paid then
      assert WithPaid([v], v.id)[0].paid;
      true
    else
      assert WithPaid([v], v.id) == [v];
      false
  }

  /** No update clears a departure or a payment: once a row stops offering a
      button, no later update offers it again, so each button acts at most once
      per visit. */
  lemma {:induction false} UpdatesAreMonotone(rows: seq<Visit>, id: nat, t: DateTime, i: int)
    requires 0 <= i < |rows|
    ensures !OffersFinish(rows[i]) ==> !OffersFinish(WithDeparture(rows, id, t)[i]) && !OffersFinish(WithPaid(rows, id)[i])
    ensures !OffersReceive(rows[i]) ==> !OffersReceive(WithDeparture(rows, id, t)[i]) && !OffersReceive(WithPaid(rows, id)[i])
    ensures rows[i].id == id ==> !OffersFinish(WithDeparture(rows, id, t)[i]) && !OffersReceive(WithPaid(rows, id)[i])
  {
  }

  /** Stamping a departure changes no id, arrival or price. */
  lemma {:induction false} DepartureKeepsWellFormed(rows: seq<Visit>, lastId: nat, id: nat, t: DateTime)
    requires WellFormed(rows, lastId)
    ensures WellFormed(WithDeparture(rows, id, t), lastId)
  {
    var d := WithDeparture(rows, id, t);
    forall v | v in d ensures 1 <= v.id <= lastId && v.price == DefaultPrice && Clock.Valid(v.arrival) {
      var i :| 0 <= i < |d| && d[i] == v;
      assert rows[i] in rows;
    }
    assert forall i, j :: 0 <= i < j < |rows| ==> IdBefore(d[i], d[j]);
  }

  /** Marking a visit paid changes no id, arrival or price. */
  lemma {:induction false} PaymentKeepsWellFormed(rows: seq<Visit>, lastId: nat, id: nat)
    requires WellFormed(rows, lastId)
    ensures WellFormed(WithPaid(rows, id), lastId)
  {
    var p := WithPaid(rows, id);
    forall v | v in p ensures 1 <= v.id <= lastId && v.price == DefaultPrice && Clock.Valid(v.arrival) {
      var i :| 0 <= i < |p| && p[i] == v;
      assert rows[i] in rows;
    }
    assert forall i, j :: 0 <= i < j < |rows| ==> IdBefore(p[i], p[j]);
  }

  /** The queue order: `a` arrived at or after `b` (newest first). */
  predicate NewestFirst(a: Visit, b: Visit)
  {
    AtOrAfter(a.arrival, b.arrival)
  }

  lemma NewestFirstIsTotalPreorder()
    ensures TotalPreorder(NewestFirst)
  {
    forall a: Visit, b: Visit, c: Visit
      ensures NewestFirst(a, b) || NewestFirst(b, a)
      ensures NewestFirst(a, b) && NewestFirst(b, c) ==> NewestFirst(a, c)
    {
      BeforeIsStrictTotalOrder(a.arrival, b.arrival, c.arrival);
      BeforeIsStrictTotalOrder(c.arrival, b.arrival, a.arrival);
    }
  }

  /** The admin queue, `ORDER BY chegada DESC`: every row once, newest arrival first. */
  function Queue(rows: seq<Visit>): (r: seq<Visit>)
    ensures multiset(r) == multiset(rows)
    ensures SortedBy(r, NewestFirst)
  {
    NewestFirstIsTotalPreorder();
    SortBySorted(rows, NewestFirst);
    SortBy(rows, NewestFirst)
  }

  /** What the kiosk reports after a check-in attempt. */
  datatype CheckInOutcome = CheckedIn(id: nat) | NameMissing

  /** The `cortes` table and its `AUTOINCREMENT` counter. */
  class VisitTable {
    var rows: seq<Visit>
    var lastId: nat

    ghost predicate Valid()
      reads this
    {
      WellFormed(rows, lastId)
    }

    /** `CREATE TABLE cortes (id INTEGER PRIMARY KEY AUTOINCREMENT, ...)` */
    constructor ()
      ensures Valid() && rows == [] && lastId == 0
    {
      rows, lastId := [], 0;
    }

    /** The kiosk's "CHEGUEI": an empty name only warns; any other name,
        blanks included, inserts one row with a fresh id. */
    method CheckIn(name: string, now: DateTime) returns (outcome: CheckInOutcome)
      requires Valid() && Clock.Valid(now)
      modifies this
      ensures Valid()
      ensures name == [] ==> outcome == NameMissing && rows == old(rows) && lastId == old(lastId)
      ensures name != [] ==> outcome == CheckedIn(lastId) && lastId == old(lastId) + 1 &&
                             rows == old(rows) + [NewVisit(lastId, name, now)]
      ensures forall v :: v in old(rows) ==> outcome.CheckedIn? ==> v.id < outcome.id
    {
      if name == [] {
        outcome := NameMissing;
      } else {
        lastId := lastId + 1;
        var v := NewVisit(lastId, name, now);
        assert forall i :: 0 <= i < |rows| ==> rows[i] in rows;
        rows := rows + [v];
        outcome := CheckedIn(lastId);
      }
    }

    /** "Finalizar Corte": stamps the departure of the visit with that id. */
    method FinishCut(id: nat, now: DateTime)
      requires Valid()
      modifies this
      ensures Valid()
      ensures rows == WithDeparture(old(rows), id, now) && lastId == old(lastId)
    {
      DepartureKeepsWellFormed(rows, lastId, id, now);
      rows := WithDeparture(rows, id, now);
    }

    /** "Receber": marks the visit with that id as paid. */
    method Receive(id: nat)
      requires Valid()
      modifies this
      ensures Valid()
      ensures rows == WithPaid(old(rows), id) && lastId == old(lastId)
    {
      PaymentKeepsWellFormed(rows, lastId, id);
      rows := WithPaid(rows, id);
    }
  }

  /** A name made only of blanks is not empty, so the kiosk stores it as a visit. */
  method BlankNameIsCheckedIn(table: VisitTable, now: DateTime) returns (outcome: CheckInOutcome)
    requires table.Valid() && Clock.Valid(now)
    modifies table
    ensures outcome.CheckedIn? && |table.rows| == |old(table.rows)| + 1
    ensures table.rows[|table.rows| - 1].customer == "   "
  {
    outcome := table.CheckIn("   ", now);
  }
}
