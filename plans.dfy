/** The subscription table (`planos`): plans saved from the admin form,
    listed by due date with a coloured status badge, deleted by id. Dates are
    day numbers, so `due - today` is Python's `(venc - hoje).days`. */
module Plans {
  import opened Seqs

  const Active := "Ativo"
  const Cancelled := "Cancelado"
  const OverdueLabel := "ATRASADO"
  const DueSoonLabel := "Vence em Breve"

  /** A plan due within this many days (inclusive) is "due soon". */
  const DueSoonDays := 3

  /** A row of `planos`: `id`, `cliente`, `vencimento`, `status`. */
  datatype Plan = Plan(id: nat, customer: string, due: int, status: string)

  datatype Color = Green | Orange | Red | Gray

  /** The `:color[label]` badge drawn beside a plan. */
  datatype Badge = Badge(color: Color, text: string)

  /** The badge for a plan with this status and due day, seen on day `today`. */
  function Classify(status: string, due: int, today: int): (b: Badge)
    ensures b.color == Gray <==> status != Active
    ensures b.color == Red <==> status == Active && due - today < 0
    ensures b.color == Orange <==> status == Active && 0 <= due - today <= DueSoonDays
    ensures b.color == Green <==> status == Active && due - today > DueSoonDays
    ensures b.text == match b.color
                       case Red => OverdueLabel
                       case Orange => DueSoonLabel
                       case _ => status
  {
    var daysLeft := due - today;
    if status == Active then
      if daysLeft < 0 then Badge(Red, OverdueLabel)
      else if daysLeft <= DueSoonDays then Badge(Orange, DueSoonLabel)
      else Badge(Green, status)
    else Badge(Gray, status)
  }

  /** How pressing a badge is: green and gray 0, orange 1, red 2. */
  function Urgency(b: Badge): (u: nat)
    ensures u <= 2
  {
    match b.color
    case Red => 2
    case Orange => 1
    case _ => 0
  }

  /** The boundaries: due today and due in exactly three days are both "due
      soon"; one day late is overdue; a cancelled plan shows its status. */
  lemma ClassifyBoundaries(today: int)
    ensures Classify(Active, today, today) == Badge(Orange, DueSoonLabel)
    ensures Classify(Active, today + 3, today) == Badge(Orange, DueSoonLabel)
    ensures Classify(Active, today + 4, today) == Badge(Green, Active)
    ensures Classify(Active, today - 1, today) == Badge(Red, OverdueLabel)
    ensures Classify(Cancelled, today, today) == Badge(Gray, Cancelled)
  {
  }

  /** As days pass, a plan's badge never becomes less urgent. */
  lemma {:induction false} UrgencyGrowsWithTime(status: string, due: int, today: int, later: int)
    requires today <= later
    ensures Urgency(Classify(status, due, today)) <= Urgency(Classify(status, due, later))
  {
  }

  /** Of two plans with the same status, the one due first is at least as urgent. */
  lemma {:induction false} EarlierDueIsMoreUrgent(status: string, d1: int, d2: int, today: int)
    requires d1 <= d2
    ensures Urgency(Classify(status, d2, today)) <= Urgency(Classify(status, d1, today))
  {
  }

  /** Listing order: `a` is due no later than `b`. */
  predicate DueFirst(a: Plan, b: Plan)
  {
    a.due <= b.due
  }

  /** The plan list, `ORDER BY vencimento ASC`: every plan once, earliest due first. */
  function PlanList(rows: seq<Plan>): (r: seq<Plan>)
    ensures multiset(r) == multiset(rows)
    ensures SortedBy(r, DueFirst)
  {
    assert TotalPreorder(DueFirst);
    SortBySorted(rows, DueFirst);
    SortBy(rows, DueFirst)
  }

  /** In the listing, badges of plans with the same status never get more
      urgent further down: overdue plans come first, then due-soon ones. */
  lemma ListingShowsMostUrgentFirst(rows: seq<Plan>, today: int, i: int, j: int)
    requires 0 <= i < j < |PlanList(rows)|
    requires PlanList(rows)[i].status == PlanList(rows)[j].status
    ensures Urgency(Classify(PlanList(rows)[j].status, PlanList(rows)[j].due, today)) <=
            Urgency(Classify(PlanList(rows)[i].status, PlanList(rows)[i].due, today))
  {
    var r := PlanList(rows);
    assert DueFirst(r[i], r[j]);
    EarlierDueIsMoreUrgent(r[i].status, r[i].due, r[j].due, today);
  }

  predicate IdBefore(a: Plan, b: Plan)
  {
    a.id < b.id
  }

  /** The table invariant: ids ascend in insertion order and were all issued
      by the counter; every status is one the form offers. */
  ghost predicate WellFormed(rows: seq<Plan>, lastId: nat)
  {
    SortedBy(rows, IdBefore) &&
    forall p :: p in rows ==> 1 <= p.id <= lastId && (p.status == Active || p.status == Cancelled)
  }

  /** The `WHERE id <> id` test of a delete: the rows that survive it. */
  function Survives(id: nat): Plan -> bool
  {
    (p: Plan) => p.id != id
  }

  /** `DELETE FROM planos WHERE id = id`: every other plan stays, in order. */
  function WithoutPlan(rows: seq<Plan>, id: nat): (r: seq<Plan>)
    ensures forall p :: p in r <==> p in rows && p.id != id
    ensures (forall p :: p in rows ==> p.id != id) ==> r == rows
  {
    var r := Filter(rows, Survives(id));
    assert (forall p :: p in rows ==> p.id != id) ==> r == rows by {
      if forall p :: p in rows ==> p.id != id {
        FilterKeepsAll(rows, Survives(id));
      }
    }
    r
  }

  /** A delete keeps the table invariant (the counter is untouched). */
  lemma DeleteKeepsWellFormed(rows: seq<Plan>, lastId: nat, id: nat)
    requires WellFormed(rows, lastId)
    ensures WellFormed(WithoutPlan(rows, id), lastId)
  {
    FilterKeepsSorted(rows, Survives(id), IdBefore);
  }

  /** Deleting an id that is present removes exactly one plan and keeps the
      others in their order. */
  lemma {:induction false} DeleteRemovesExactlyOne(rows: seq<Plan>, lastId: nat, k: int)
    requires WellFormed(rows, lastId)
    requires 0 <= k < |rows|
    ensures WithoutPlan(rows, rows[k].id) == rows[..k] + rows[k + 1..]
    ensures |WithoutPlan(rows, rows[k].id)| == |rows| - 1
  {
    var front, back := rows[..k], rows[k + 1..];
    assert rows == front + [rows[k]] + back;
    forall p | p in front ensures p.id != rows[k].id {
      var i :| 0 <= i < |front| && front[i] == p;
      assert IdBefore(rows[i], rows[k]);
    }
    forall p | p in back ensures p.id != rows[k].id {
      var i :| 0 <= i < |back| && back[i] == p;
      assert IdBefore(rows[k], rows[k + 1 + i]);
    }
    FilterDropsOne(front, rows[k], back, Survives(rows[k].id));
  }

  /** Deleting the same id twice: the second delete finds nothing and changes nothing. */
  lemma DeleteIsIdempotent(rows: seq<Plan>, id: nat)
    ensures WithoutPlan(WithoutPlan(rows, id), id) == WithoutPlan(rows, id)
  {
  }

  /** What the "Salvar Plano" button did. */
  datatype SaveOutcome = Saved(id: nat) | NotSaved

  /** The `planos` table and its `AUTOINCREMENT` counter. */
  class PlanTable {
    var rows: seq<Plan>
    var lastId: nat

    ghost predicate Valid()
      reads this
    {
      WellFormed(rows, lastId)
    }

    /** `CREATE TABLE planos (id INTEGER PRIMARY KEY AUTOINCREMENT, ...)` */
    constructor ()
      ensures Valid() && rows == [] && lastId == 0
    {
      rows, lastId := [], 0;
    }

    /** "Salvar Plano": saves only when the name is not empty (nothing is shown
        otherwise); the status comes from the form's two choices. */
    method Save(name: string, due: int, status: string) returns (outcome: SaveOutcome)
      requires Valid()
      requires status == Active || status == Cancelled
      modifies this
      ensures Valid()
      ensures name == [] ==> outcome == NotSaved && rows == old(rows) && lastId == old(lastId)
      ensures name != [] ==> outcome == Saved(lastId) && lastId == old(lastId) + 1 &&
                             rows == old(rows) + [Plan(lastId, name, due, status)]
      ensures forall p :: p in old(rows) ==> outcome.Saved? ==> p.id < outcome.id
    {
      if name == [] {
        outcome := NotSaved;
      } else {
        lastId := lastId + 1;
        assert forall i :: 0 <= i < |rows| ==> rows[i] in rows;
        rows := rows + [Plan(lastId, name, due, status)];
        outcome := Saved(lastId);
      }
    }

    /** The trash button: deletes the plan with that id, if any; the counter
        keeps its value, so the id is never issued again. */
    method Delete(id: nat)
      requires Valid()
      modifies this
      ensures Valid()
      ensures rows == WithoutPlan(old(rows), id) && lastId == old(lastId)
    {
      DeleteKeepsWellFormed(rows, lastId, id);
      rows := WithoutPlan(rows, id);
    }
  }

  /** A deleted plan's id is never handed out again: the next saved plan gets
      a new one. */
  method DeleteThenSave(table: PlanTable, k: int, name: string, due: int, status: string)
    returns (outcome: SaveOutcome)
    requires table.Valid() && 0 <= k < |table.rows|
    requires status == Active || status == Cancelled
    modifies table
    ensures outcome.Saved? ==> outcome.id != old(table.rows[k].id)
    ensures forall p :: p in table.rows ==> p.id != old(table.rows[k].id)
  {
    var id := table.rows[k].id;
    assert table.rows[k] in table.rows;
    table.Delete(id);
    outcome := table.Save(name, due, status);
  }
}
