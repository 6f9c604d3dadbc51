/**
 * The order-history listings of `views.py`: `user_orders` and
 * `pharmacy_orders`. Both walk their lines newest first and fold them into
 * one group per group id: the group's header fields come from its first
 * (newest) line, its lines are listed in walk order, and its total is the
 * sum of the line totals. The listing is then sorted by creation time,
 * newest first.
 */
module Projections {
  import opened Wrappers
  import opened Models
  import opened Store

  /** One entry of a group's `medicines` list. */
  datatype LineEntry = LineEntry(row: RowId, medicine: Option<MedicineId>, quantity: nat, price: Paise, pharmacy: Option<PharmacyId>)

  /** One group of the listing; `header` is the line its header fields are read from. */
  datatype Group = Group(orderId: string, head: RowId, header: OrderLine, total: Paise, lines: seq<LineEntry>)

  function EntryOf(orders: map<RowId, OrderLine>, r: RowId): LineEntry
    requires r in orders
  {
    var o := orders[r];
    LineEntry(r, o.medicine, o.quantity, o.total, o.pharmacy)
  }

  /** The pharmacies a group's lines come from (joined by name into `pharmacy_name`). */
  function Pharmacies(g: Group): set<PharmacyId> {
    set e | e in g.lines && e.pharmacy.Some? :: e.pharmacy.value
  }

  function SumPrices(lines: seq<LineEntry>): Paise {
    if lines == [] then 0 else SumPrices(lines[..|lines| - 1]) + lines[|lines| - 1].price
  }

  predicate AllIn(orders: map<RowId, OrderLine>, rows: seq<RowId>) {
    forall r | r in rows :: r in orders
  }

  predicate DistinctIds(ids: seq<string>) {
    forall i, j | 0 <= i < j < |ids| :: ids[i] != ids[j]
  }

  // ---------------------------------------------------------------------------
  // Reference definition of the grouping
  // ---------------------------------------------------------------------------

  /** The group ids in order of first appearance. */
  function FirstIds(orders: map<RowId, OrderLine>, rows: seq<RowId>): seq<string>
    requires AllIn(orders, rows)
  {
    if rows == [] then []
    else
      var ids := FirstIds(orders, rows[..|rows| - 1]);
      var id := orders[rows[|rows| - 1]].orderId;
      if id in ids then ids else ids + [id]
  }

  /** The first row with this group id, if any. */
  function FirstWith(orders: map<RowId, OrderLine>, rows: seq<RowId>, id: string): Option<RowId>
    requires AllIn(orders, rows)
  {
    if rows == [] then None
    else
      var first := FirstWith(orders, rows[..|rows| - 1], id);
      if first.Some? then first
      else if orders[rows[|rows| - 1]].orderId == id then Some(rows[|rows| - 1])
      else None
  }

  /** The entries of the rows with this group id, in walk order. */
  function LinesWith(orders: map<RowId, OrderLine>, rows: seq<RowId>, id: string): seq<LineEntry>
    requires AllIn(orders, rows)
  {
    if rows == [] then []
    else
      var r := rows[|rows| - 1];
      LinesWith(orders, rows[..|rows| - 1], id) + if orders[r].orderId == id then [EntryOf(orders, r)] else []
  }

  lemma {:induction false} FirstIdsFound(orders: map<RowId, OrderLine>, rows: seq<RowId>)
    requires AllIn(orders, rows)
    ensures DistinctIds(FirstIds(orders, rows))
    ensures forall id :: id in FirstIds(orders, rows) <==> FirstWith(orders, rows, id).Some?
    ensures forall id | FirstWith(orders, rows, id).Some? ::
      FirstWith(orders, rows, id).value in rows && orders[FirstWith(orders, rows, id).value].orderId == id
  {
    if rows != [] {
      FirstIdsFound(orders, rows[..|rows| - 1]);
    }
  }

  function GroupFor(orders: map<RowId, OrderLine>, rows: seq<RowId>, id: string): Group
    requires AllIn(orders, rows)
    requires FirstWith(orders, rows, id).Some?
  {
    FirstIdsFound(orders, rows);
    var head := FirstWith(orders, rows, id).value;
    var lines := LinesWith(orders, rows, id);
    Group(id, head, orders[head], SumPrices(lines), lines)
  }

  /** The grouping, stated group by group: one group per id in order of first appearance. */
  function Grouping(orders: map<RowId, OrderLine>, rows: seq<RowId>): (gs: seq<Group>)
    requires AllIn(orders, rows)
  {
    FirstIdsFound(orders, rows);
    var ids := FirstIds(orders, rows);
    seq(|ids|, i requires 0 <= i < |ids| => GroupFor(orders, rows, ids[i]))
  }

  // ---------------------------------------------------------------------------
  // What the grouping promises
  // ---------------------------------------------------------------------------

  lemma {:induction false} LinesWithMembers(orders: map<RowId, OrderLine>, rows: seq<RowId>, id: string)
    requires AllIn(orders, rows)
    ensures forall e | e in LinesWith(orders, rows, id) ::
      e.row in rows && orders[e.row].orderId == id && e == EntryOf(orders, e.row)
    ensures forall r | r in rows && orders[r].orderId == id :: EntryOf(orders, r) in LinesWith(orders, rows, id)
  {
    if rows != [] {
      LinesWithMembers(orders, rows[..|rows| - 1], id);
      assert rows == rows[..|rows| - 1] + [rows[|rows| - 1]];
    }
  }

  /** No line is listed twice. */
  predicate DistinctRows(lines: seq<LineEntry>) {
    forall i, j | 0 <= i < j < |lines| :: lines[i].row != lines[j].row
  }

  /** Each line is listed once: no group lists a line twice, and no line is in two groups. */
  predicate OncePerLine(gs: seq<Group>) {
    && (forall k | 0 <= k < |gs| :: DistinctRows(gs[k].lines))
    && (forall k, l, i | 0 <= k < l < |gs| && 0 <= i < |gs[k].lines| :: gs[k].lines[i] !in gs[l].lines)
  }

  /** Walking distinct rows lists each of them at most once. */
  lemma {:induction false} LinesWithDistinct(orders: map<RowId, OrderLine>, rows: seq<RowId>, id: string)
    requires AllIn(orders, rows) && Distinct(rows)
    ensures DistinctRows(LinesWith(orders, rows, id))
  {
    if rows != [] {
      var init := rows[..|rows| - 1];
      var r := rows[|rows| - 1];
      assert Distinct(init) by {
        forall i, j | 0 <= i < j < |init| ensures init[i] != init[j] {
          assert init[i] == rows[i] && init[j] == rows[j];
        }
      }
      assert r !in init by {
        forall k | 0 <= k < |init| ensures init[k] != r {
          assert init[k] == rows[k];
        }
      }
      LinesWithDistinct(orders, init, id);
      LinesWithMembers(orders, init, id);
      var before := LinesWith(orders, init, id);
      var lines := LinesWith(orders, rows, id);
      forall i, j | 0 <= i < j < |lines| ensures lines[i].row != lines[j].row {
        if j >= |before| {
          assert lines[i] == before[i] && before[i] in before;
        }
      }
    }
  }

  /** Grouping distinct rows lists every line once. */
  lemma GroupingOncePerLine(orders: map<RowId, OrderLine>, rows: seq<RowId>)
    requires AllIn(orders, rows) && Distinct(rows)
    ensures OncePerLine(Grouping(orders, rows))
  {
    FirstIdsFound(orders, rows);
    GroupingSound(orders, rows);
    var gs := Grouping(orders, rows);
    var ids := FirstIds(orders, rows);
    forall k | 0 <= k < |gs| ensures DistinctRows(gs[k].lines) {
      LinesWithDistinct(orders, rows, ids[k]);
    }
    forall k, l, i | 0 <= k < l < |gs| && 0 <= i < |gs[k].lines| ensures gs[k].lines[i] !in gs[l].lines {
      var e := gs[k].lines[i];
      assert e in gs[k].lines;
      assert orders[e.row].orderId == gs[k].orderId != gs[l].orderId;
    }
  }

  /**
   * The groups have distinct ids; every walked line is in the group of its
   * id and nowhere else; each group's header is its first line and its
   * total is the sum of its lines.
   */
  lemma GroupingSound(orders: map<RowId, OrderLine>, rows: seq<RowId>)
    requires AllIn(orders, rows)
    ensures var gs := Grouping(orders, rows);
      && (forall i, j | 0 <= i < j < |gs| :: gs[i].orderId != gs[j].orderId)
      && (forall r | r in rows :: exists k | 0 <= k < |gs| :: gs[k].orderId == orders[r].orderId)
      && (forall k | 0 <= k < |gs| ::
            && gs[k].head in rows && gs[k].head in orders && gs[k].header == orders[gs[k].head]
            && gs[k].header.orderId == gs[k].orderId
            && gs[k].total == SumPrices(gs[k].lines)
            && (forall e | e in gs[k].lines :: e.row in rows && orders[e.row].orderId == gs[k].orderId && e == EntryOf(orders, e.row))
            && (forall r | r in rows && orders[r].orderId == gs[k].orderId :: EntryOf(orders, r) in gs[k].lines))
  {
    FirstIdsFound(orders, rows);
    var gs := Grouping(orders, rows);
    var ids := FirstIds(orders, rows);
    forall r | r in rows
      ensures exists k | 0 <= k < |gs| :: gs[k].orderId == orders[r].orderId
    {
      FirstWithFinds(orders, rows, r);
      var k :| 0 <= k < |ids| && ids[k] == orders[r].orderId;
      assert gs[k].orderId == ids[k];
    }
    forall k | 0 <= k < |gs|
      ensures forall e | e in gs[k].lines :: e.row in rows && orders[e.row].orderId == gs[k].orderId && e == EntryOf(orders, e.row)
      ensures forall r | r in rows && orders[r].orderId == gs[k].orderId :: EntryOf(orders, r) in gs[k].lines
    {
      LinesWithMembers(orders, rows, ids[k]);
    }
  }

  lemma {:induction false} FirstWithFinds(orders: map<RowId, OrderLine>, rows: seq<RowId>, r: RowId)
    requires AllIn(orders, rows) && r in rows
    ensures FirstWith(orders, rows, orders[r].orderId).Some?
  {
    var init := rows[..|rows| - 1];
    if r in init {
      FirstWithFinds(orders, init, r);
    }
  }

  /**
   * Walking newest first gives the groups newest first: a group's first
   * line comes after the first line of every earlier group.
   */
  lemma {:induction false} GroupingNewestFirst(orders: map<RowId, OrderLine>, rows: seq<RowId>)
    requires AllIn(orders, rows)
    requires NewestFirst(orders, rows)
    ensures SortedNewestFirst(Grouping(orders, rows))
  {
    if rows != [] {
      var init := rows[..|rows| - 1];
      var last := rows[|rows| - 1];
      assert rows == init + [last];
      InitNewestFirst(orders, rows);
      GroupingNewestFirst(orders, init);
      GroupingSnoc(orders, init, last);
      SnocNewestFirst(orders, init, last);
    }
  }

  /** The rows before the last are newest first and none is older than the last. */
  lemma InitNewestFirst(orders: map<RowId, OrderLine>, rows: seq<RowId>)
    requires rows != [] && AllIn(orders, rows) && NewestFirst(orders, rows)
    ensures NewestFirst(orders, rows[..|rows| - 1])
    ensures forall x | x in rows[..|rows| - 1] :: orders[x].createdAt >= orders[rows[|rows| - 1]].createdAt
  {
    var init := rows[..|rows| - 1];
    forall i, j | 0 <= i < j < |init| && init[i] in orders && init[j] in orders
      ensures orders[init[i]].createdAt >= orders[init[j]].createdAt
    {
      assert init[i] == rows[i] && init[j] == rows[j];
    }
    forall x | x in init ensures orders[x].createdAt >= orders[rows[|rows| - 1]].createdAt {
      var p :| 0 <= p < |init| && init[p] == x;
      assert rows[p] == x;
    }
  }

  /** Adding a line no newer than every walked line keeps the headers newest first. */
  lemma SnocNewestFirst(orders: map<RowId, OrderLine>, rows: seq<RowId>, r: RowId)
    requires AllIn(orders, rows) && r in orders
    requires SortedNewestFirst(Grouping(orders, rows))
    requires forall x | x in rows :: orders[x].createdAt >= orders[r].createdAt
    ensures AllIn(orders, rows + [r])
    ensures SortedNewestFirst(Grouping(orders, rows + [r]))
  {
    GroupingSnoc(orders, rows, r);
    var gs0 := Grouping(orders, rows);
    var gs := Grouping(orders, rows + [r]);
    var id := orders[r].orderId;
    if id !in FirstIds(orders, rows) {
      forall i | 0 <= i < |gs0| ensures gs0[i].header.createdAt >= orders[r].createdAt {
        GroupingHeads(orders, rows, i);
      }
      assert gs == gs0 + [Open(orders, r)];
      SnocSorted(gs0, Open(orders, r));
    } else {
      FirstIdsFound(orders, rows);
      var k :| 0 <= k < |gs0| && FirstIds(orders, rows)[k] == id;
      assert gs == gs0[k := AddLine(orders, gs0[k], r)];
      SameHeadersSorted(gs0, gs);
    }
  }

  /** A group no newer than every group of a sorted listing can go last. */
  lemma SnocSorted(gs: seq<Group>, g: Group)
    requires SortedNewestFirst(gs)
    requires forall i | 0 <= i < |gs| :: gs[i].header.createdAt >= g.header.createdAt
    ensures SortedNewestFirst(gs + [g])
  {
    var r := gs + [g];
    forall i, j | 0 <= i < j < |r| ensures r[i].header.createdAt >= r[j].header.createdAt {
      assert r[i] == gs[i];
      if j < |gs| { assert r[j] == gs[j]; }
    }
  }

  /** Order by headers only depends on the headers. */
  lemma SameHeadersSorted(gs: seq<Group>, hs: seq<Group>)
    requires SortedNewestFirst(gs) && |hs| == |gs|
    requires forall m | 0 <= m < |gs| :: hs[m].header == gs[m].header
    ensures SortedNewestFirst(hs)
  {
  }

  /**
   * The group's head is its first line in walk order; when the walked rows
   * are newest first, no line of the group is newer than the head, so the
   * group's status and date come from its newest line.
   */
  predicate HeadIsNewestLine(orders: map<RowId, OrderLine>, g: Group) {
    && g.lines != [] && g.lines[0].row == g.head
    && forall e | e in g.lines && e.row in orders :: orders[e.row].createdAt <= g.header.createdAt
  }

  lemma {:induction false} FirstLineIsFirstWith(orders: map<RowId, OrderLine>, rows: seq<RowId>, id: string)
    requires AllIn(orders, rows) && FirstWith(orders, rows, id).Some?
    ensures FirstWith(orders, rows, id).value in rows
    ensures LinesWith(orders, rows, id) != []
    ensures LinesWith(orders, rows, id)[0] == EntryOf(orders, FirstWith(orders, rows, id).value)
    ensures NewestFirst(orders, rows) ==>
      forall e | e in LinesWith(orders, rows, id) && e.row in orders ::
        orders[e.row].createdAt <= orders[FirstWith(orders, rows, id).value].createdAt
  {
    FirstIdsFound(orders, rows);
    var init := rows[..|rows| - 1];
    assert forall x | x in init :: x in rows;
    if FirstWith(orders, init, id).Some? {
      FirstLineIsFirstWith(orders, init, id);
      if NewestFirst(orders, rows) {
        InitNewestFirst(orders, rows);
        FirstIdsFound(orders, init);
      }
    } else {
      LinesWithMembersEmpty(orders, init, id);
    }
  }

  lemma GroupingHeadsLead(orders: map<RowId, OrderLine>, rows: seq<RowId>)
    requires AllIn(orders, rows) && NewestFirst(orders, rows)
    ensures var gs := Grouping(orders, rows);
      forall k | 0 <= k < |gs| :: HeadIsNewestLine(orders, gs[k])
  {
    FirstIdsFound(orders, rows);
    var ids := FirstIds(orders, rows);
    var gs := Grouping(orders, rows);
    forall k | 0 <= k < |gs| ensures HeadIsNewestLine(orders, gs[k]) {
      assert gs[k] == GroupFor(orders, rows, ids[k]);
      FirstLineIsFirstWith(orders, rows, ids[k]);
    }
  }

  lemma GroupingHeads(orders: map<RowId, OrderLine>, rows: seq<RowId>, k: nat)
    requires AllIn(orders, rows)
    requires k < |Grouping(orders, rows)|
    ensures Grouping(orders, rows)[k].head in rows
    ensures Grouping(orders, rows)[k].header == orders[Grouping(orders, rows)[k].head]
  {
    FirstIdsFound(orders, rows);
  }

  // ---------------------------------------------------------------------------
  // The loop
  // ---------------------------------------------------------------------------

  /** A group started by its first line. */
  function Open(orders: map<RowId, OrderLine>, r: RowId): (g: Group)
    requires r in orders
  {
    Group(orders[r].orderId, r, orders[r], orders[r].total, [EntryOf(orders, r)])
  }

  /** A later line of the group: appended to the lines and added to the total. */
  function AddLine(orders: map<RowId, OrderLine>, g: Group, r: RowId): (g': Group)
    requires r in orders
  {
    g.(total := g.total + orders[r].total, lines := g.lines + [EntryOf(orders, r)])
  }

  lemma SumPricesSnoc(lines: seq<LineEntry>, e: LineEntry)
    ensures SumPrices(lines + [e]) == SumPrices(lines) + e.price
  {
    assert (lines + [e])[..|lines|] == lines;
  }

  /** One more walked line either opens a new group at the end or extends the group of its id. */
  lemma GroupingSnoc(orders: map<RowId, OrderLine>, rows: seq<RowId>, r: RowId)
    requires AllIn(orders, rows) && r in orders
    ensures AllIn(orders, rows + [r])
    ensures var gs := Grouping(orders, rows);
      var gs' := Grouping(orders, rows + [r]);
      var ids := FirstIds(orders, rows);
      var id := orders[r].orderId;
      && (id !in ids ==> gs' == gs + [Open(orders, r)])
      && (forall k | 0 <= k < |gs| && gs[k].orderId == id :: gs' == gs[k := AddLine(orders, gs[k], r)])
      && (forall k | 0 <= k < |gs| :: gs[k].orderId == ids[k])
  {
    var gs := Grouping(orders, rows);
    var id := orders[r].orderId;
    if id !in FirstIds(orders, rows) {
      GroupingSnocNew(orders, rows, r);
    }
    forall k | 0 <= k < |gs| && gs[k].orderId == id
      ensures Grouping(orders, rows + [r]) == gs[k := AddLine(orders, gs[k], r)]
    {
      GroupingSnocSeen(orders, rows, r, k);
    }
  }

  /** A line of another group changes neither the first row nor the lines of a group. */
  lemma SnocOther(orders: map<RowId, OrderLine>, rows: seq<RowId>, r: RowId, x: string)
    requires AllIn(orders, rows) && r in orders && x != orders[r].orderId
    ensures AllIn(orders, rows + [r])
    ensures FirstWith(orders, rows + [r], x) == FirstWith(orders, rows, x)
    ensures LinesWith(orders, rows + [r], x) == LinesWith(orders, rows, x)
  {
    var rows' := rows + [r];
    assert rows'[..|rows'| - 1] == rows && rows'[|rows'| - 1] == r;
  }

  /** A line of a group already seen keeps its first row and joins its lines. */
  lemma SnocSame(orders: map<RowId, OrderLine>, rows: seq<RowId>, r: RowId)
    requires AllIn(orders, rows) && r in orders
    ensures AllIn(orders, rows + [r])
    ensures var id := orders[r].orderId;
      && LinesWith(orders, rows + [r], id) == LinesWith(orders, rows, id) + [EntryOf(orders, r)]
      && (FirstWith(orders, rows, id).Some? ==> FirstWith(orders, rows + [r], id) == FirstWith(orders, rows, id))
      && (FirstWith(orders, rows, id).None? ==> FirstWith(orders, rows + [r], id) == Some(r))
  {
    var rows' := rows + [r];
    assert rows'[..|rows'| - 1] == rows && rows'[|rows'| - 1] == r;
  }

  lemma GroupingSnocNew(orders: map<RowId, OrderLine>, rows: seq<RowId>, r: RowId)
    requires AllIn(orders, rows) && r in orders
    requires orders[r].orderId !in FirstIds(orders, rows)
    ensures AllIn(orders, rows + [r])
    ensures Grouping(orders, rows + [r]) == Grouping(orders, rows) + [Open(orders, r)]
  {
    var rows' := rows + [r];
    assert rows'[..|rows'| - 1] == rows && rows'[|rows'| - 1] == r;
    FirstIdsFound(orders, rows);
    FirstIdsFound(orders, rows');
    var gs := Grouping(orders, rows);
    var gs' := Grouping(orders, rows');
    var ids := FirstIds(orders, rows);
    var id := orders[r].orderId;
    assert FirstIds(orders, rows') == ids + [id];
    forall k | 0 <= k < |gs|
      ensures gs'[k] == gs[k]
    {
      SnocOther(orders, rows, r, ids[k]);
    }
    LinesWithMembersEmpty(orders, rows, id);
    SnocSame(orders, rows, r);
    assert LinesWith(orders, rows', id) == [EntryOf(orders, r)];
    assert SumPrices([EntryOf(orders, r)]) == orders[r].total by {
      assert [EntryOf(orders, r)][..0] == [];
    }
    assert gs'[|gs|] == Open(orders, r);
  }

  lemma GroupingSnocSeen(orders: map<RowId, OrderLine>, rows: seq<RowId>, r: RowId, k: nat)
    requires AllIn(orders, rows) && r in orders
    requires k < |Grouping(orders, rows)| && Grouping(orders, rows)[k].orderId == orders[r].orderId
    ensures AllIn(orders, rows + [r])
    ensures var gs := Grouping(orders, rows);
      Grouping(orders, rows + [r]) == gs[k := AddLine(orders, gs[k], r)]
  {
    var rows' := rows + [r];
    assert rows'[..|rows'| - 1] == rows && rows'[|rows'| - 1] == r;
    FirstIdsFound(orders, rows);
    var gs := Grouping(orders, rows);
    var ids := FirstIds(orders, rows);
    var id := orders[r].orderId;
    assert ids[k] == id;
    assert FirstIds(orders, rows') == ids;
    var gs' := Grouping(orders, rows');
    forall m | 0 <= m < |gs|
      ensures gs'[m] == gs[k := AddLine(orders, gs[k], r)][m]
    {
      if m == k {
        SnocSame(orders, rows, r);
        SumPricesSnoc(LinesWith(orders, rows, id), EntryOf(orders, r));
      } else {
        assert ids[m] != id;
        SnocOther(orders, rows, r, ids[m]);
      }
    }
  }

  lemma LinesWithMembersEmpty(orders: map<RowId, OrderLine>, rows: seq<RowId>, id: string)
    requires AllIn(orders, rows)
    requires FirstWith(orders, rows, id).None?
    ensures LinesWith(orders, rows, id) == []
  {
    LinesWithMembers(orders, rows, id);
    FirstIdsFound(orders, rows);
    if LinesWith(orders, rows, id) != [] {
      var e := LinesWith(orders, rows, id)[0];
      FirstWithFinds(orders, rows, e.row);
    }
  }

  /** The state of the dictionary walk after the walked rows `done`. */
  ghost predicate WalkState(orders: map<RowId, OrderLine>, done: seq<RowId>, groups: seq<Group>, index: map<string, nat>)
    requires AllIn(orders, done)
  {
    && groups == Grouping(orders, done)
    && (forall id :: id in index <==> id in FirstIds(orders, done))
    && (forall id | id in index :: index[id] < |groups| && groups[index[id]].orderId == id)
  }

  /** One walked line: join the indexed group of its id, or open a new group and index it. */
  function WalkStep(orders: map<RowId, OrderLine>, groups: seq<Group>, index: map<string, nat>, r: RowId): (seq<Group>, map<string, nat>)
    requires r in orders
    requires forall id | id in index :: index[id] < |groups|
  {
    var id := orders[r].orderId;
    if id in index then
      var k := index[id];
      (groups[k := AddLine(orders, groups[k], r)], index)
    else (groups + [Open(orders, r)], index[id := |groups|])
  }

  lemma WalkStepKeeps(orders: map<RowId, OrderLine>, done: seq<RowId>, groups: seq<Group>, index: map<string, nat>, r: RowId)
    requires AllIn(orders, done) && r in orders
    requires WalkState(orders, done, groups, index)
    ensures AllIn(orders, done + [r])
    ensures var next := WalkStep(orders, groups, index, r);
      WalkState(orders, done + [r], next.0, next.1)
  {
    var rows' := done + [r];
    var id := orders[r].orderId;
    assert rows'[..|rows'| - 1] == done && rows'[|rows'| - 1] == r;
    assert AllIn(orders, rows');
    if id in index {
      WalkSeenKeeps(orders, done, groups, index, r);
    } else {
      WalkNewKeeps(orders, done, groups, index, r);
    }
  }

  /** A line whose id is indexed joins that group; the index stays as it was. */
  lemma WalkSeenKeeps(orders: map<RowId, OrderLine>, done: seq<RowId>, groups: seq<Group>, index: map<string, nat>, r: RowId)
    requires AllIn(orders, done) && r in orders && AllIn(orders, done + [r])
    requires WalkState(orders, done, groups, index)
    requires orders[r].orderId in index
    ensures var next := WalkStep(orders, groups, index, r);
      WalkState(orders, done + [r], next.0, next.1)
  {
    var rows' := done + [r];
    var id := orders[r].orderId;
    var k := index[id];
    assert rows'[..|rows'| - 1] == done && rows'[|rows'| - 1] == r;
    GroupingSnocSeen(orders, done, r, k);
    assert FirstIds(orders, rows') == FirstIds(orders, done);
    var next := WalkStep(orders, groups, index, r);
    assert next == (groups[k := AddLine(orders, groups[k], r)], index);
    assert next.0 == Grouping(orders, rows');
  }

  /** A line with an unseen id opens a group at the end and indexes it there. */
  lemma WalkNewKeeps(orders: map<RowId, OrderLine>, done: seq<RowId>, groups: seq<Group>, index: map<string, nat>, r: RowId)
    requires AllIn(orders, done) && r in orders && AllIn(orders, done + [r])
    requires WalkState(orders, done, groups, index)
    requires orders[r].orderId !in index
    ensures var next := WalkStep(orders, groups, index, r);
      WalkState(orders, done + [r], next.0, next.1)
  {
    var rows' := done + [r];
    var id := orders[r].orderId;
    assert rows'[..|rows'| - 1] == done && rows'[|rows'| - 1] == r;
    GroupingSnocNew(orders, done, r);
    assert FirstIds(orders, rows') == FirstIds(orders, done) + [id];
    var next := WalkStep(orders, groups, index, r);
    assert next == (groups + [Open(orders, r)], index[id := |groups|]);
  }

  /**
   * The dictionary walk of both views: a map from group id to its position
   * in the listing, a new group for an unseen id, otherwise the line joins
   * its group. The result is the reference grouping.
   */
  method GroupLines(orders: map<RowId, OrderLine>, rows: seq<RowId>) returns (groups: seq<Group>)
    requires AllIn(orders, rows)
    ensures groups == Grouping(orders, rows)
  {
    groups := [];
    var index: map<string, nat> := map[];
    var i := 0;
    while i < |rows|
      invariant 0 <= i <= |rows|
      invariant AllIn(orders, rows[..i])
      invariant WalkState(orders, rows[..i], groups, index)
    {
      ghost var done := rows[..i];
      assert rows[..i + 1] == done + [rows[i]];
      WalkStepKeeps(orders, done, groups, index, rows[i]);
      var next := WalkStep(orders, groups, index, rows[i]);
      groups, index := next.0, next.1;
      i := i + 1;
    }
    assert rows[..|rows|] == rows;
  }

  // ---------------------------------------------------------------------------
  // The final sort
  // ---------------------------------------------------------------------------

  predicate SortedNewestFirst(gs: seq<Group>) {
    forall i, j | 0 <= i < j < |gs| :: gs[i].header.createdAt >= gs[j].header.createdAt
  }

  /** A group followed by a sorted listing none of whose groups is newer is sorted. */
  lemma ConsSorted(g: Group, gs: seq<Group>)
    requires SortedNewestFirst(gs)
    requires forall x | x in gs :: x.header.createdAt <= g.header.createdAt
    ensures SortedNewestFirst([g] + gs)
  {
    var r := [g] + gs;
    forall i, j | 0 <= i < j < |r| ensures r[i].header.createdAt >= r[j].header.createdAt {
      assert r[j] == gs[j - 1];
      if i > 0 { assert r[i] == gs[i - 1]; }
    }
  }

  /** Place `g` before the first group that is not newer than it (keeps ties in order). */
  function Insert(g: Group, gs: seq<Group>): (r: seq<Group>)
    ensures multiset(r) == multiset(gs) + multiset{g}
    ensures SortedNewestFirst(gs) ==> SortedNewestFirst(r)
  {
    if gs == [] || gs[0].header.createdAt <= g.header.createdAt then
      InsertFront(g, gs);
      [g] + gs
    else
      var rest := Insert(g, gs[1..]);
      InsertBehind(g, gs, rest);
      [gs[0]] + rest
  }

  /** `g` goes first when the listing's first group is not newer. */
  lemma InsertFront(g: Group, gs: seq<Group>)
    requires gs == [] || gs[0].header.createdAt <= g.header.createdAt
    ensures SortedNewestFirst(gs) ==> SortedNewestFirst([g] + gs)
  {
    if SortedNewestFirst(gs) {
      forall x | x in gs ensures x.header.createdAt <= g.header.createdAt {
        var k :| 0 <= k < |gs| && gs[k] == x;
        if k > 0 { assert gs[0].header.createdAt >= gs[k].header.createdAt; }
      }
      ConsSorted(g, gs);
    }
  }

  /** Otherwise the first group stays first and `g` goes into the rest. */
  lemma InsertBehind(g: Group, gs: seq<Group>, rest: seq<Group>)
    requires gs != [] && gs[0].header.createdAt > g.header.createdAt
    requires multiset(rest) == multiset(gs[1..]) + multiset{g}
    requires SortedNewestFirst(gs[1..]) ==> SortedNewestFirst(rest)
    ensures multiset([gs[0]] + rest) == multiset(gs) + multiset{g}
    ensures SortedNewestFirst(gs) ==> SortedNewestFirst([gs[0]] + rest)
  {
    assert gs == [gs[0]] + gs[1..];
    if SortedNewestFirst(gs) {
      var tail := gs[1..];
      assert SortedNewestFirst(tail) by {
        forall i, j | 0 <= i < j < |tail| ensures tail[i].header.createdAt >= tail[j].header.createdAt {
          assert tail[i] == gs[i + 1] && tail[j] == gs[j + 1];
        }
      }
      forall x | x in rest ensures x.header.createdAt <= gs[0].header.createdAt {
        assert x in multiset(rest);
        if x != g {
          assert x in multiset(tail);
          var k :| 0 <= k < |tail| && tail[k] == x;
          assert gs[k + 1] == x;
        }
      }
      ConsSorted(gs[0], rest);
    }
  }

  /**
   * `result.sort(key=created_at, reverse=True)`: a stable sort, newest
   * first; groups created at the same instant keep their order.
   */
  function SortNewestFirst(gs: seq<Group>): (r: seq<Group>)
    ensures multiset(r) == multiset(gs)
    ensures SortedNewestFirst(r)
  {
    if gs == [] then []
    else
      assert gs == [gs[0]] + gs[1..];
      Insert(gs[0], SortNewestFirst(gs[1..]))
  }

  /** A listing that is already newest first comes out of the sort unchanged. */
  lemma {:induction false} SortKeepsSorted(gs: seq<Group>)
    requires SortedNewestFirst(gs)
    ensures SortNewestFirst(gs) == gs
  {
    if gs != [] {
      SortKeepsSorted(gs[1..]);
      assert gs == [gs[0]] + gs[1..];
    }
  }

  // ---------------------------------------------------------------------------
  // The two views
  // ---------------------------------------------------------------------------

  function OwnedBy(me: User): OrderLine -> bool {
    (o: OrderLine) => o.user == me.id
  }

  function PaidAt(ph: PharmacyId): OrderLine -> bool {
    (o: OrderLine) => o.pharmacy == Some(ph) && o.payment == Paid
  }

  /** Every line the filter keeps appears, as its entry, in the group of its id. */
  lemma SelectedLinesListed(db: Db, scan: seq<RowId>, keep: OrderLine -> bool)
    requires IsScan(db, scan)
    ensures var groups := Grouping(db.orders, Select(db.orders, scan, keep));
      forall r | r in db.orders && keep(db.orders[r]) ::
        exists k | 0 <= k < |groups| :: groups[k].orderId == db.orders[r].orderId && EntryOf(db.orders, r) in groups[k].lines
  {
    var rows := Select(db.orders, scan, keep);
    var groups := Grouping(db.orders, rows);
    forall r | r in db.orders && keep(db.orders[r])
      ensures exists k | 0 <= k < |groups| :: groups[k].orderId == db.orders[r].orderId && EntryOf(db.orders, r) in groups[k].lines
    {
      assert r in rows;
      GroupingCovers(db.orders, rows, r);
    }
    assert groups == Grouping(db.orders, Select(db.orders, scan, keep));
  }

  /** A walked line is listed in the group of its id. */
  lemma GroupingCovers(orders: map<RowId, OrderLine>, rows: seq<RowId>, r: RowId)
    requires AllIn(orders, rows) && r in rows
    ensures var gs := Grouping(orders, rows);
      exists k | 0 <= k < |gs| :: gs[k].orderId == orders[r].orderId && EntryOf(orders, r) in gs[k].lines
  {
    var id := orders[r].orderId;
    FirstIdsFound(orders, rows);
    FirstWithFinds(orders, rows, r);
    var ids := FirstIds(orders, rows);
    var k :| 0 <= k < |ids| && ids[k] == id;
    LinesWithMembers(orders, rows, id);
    assert Grouping(orders, rows)[k] == GroupFor(orders, rows, id);
  }

  /** Every group is headed by a kept line of its id, sums its lines, and holds only kept lines of its id. */
  lemma SelectedGroupsSound(db: Db, scan: seq<RowId>, keep: OrderLine -> bool)
    requires IsScan(db, scan)
    ensures var groups := Grouping(db.orders, Select(db.orders, scan, keep));
      forall k | 0 <= k < |groups| ::
        && groups[k].head in db.orders && keep(db.orders[groups[k].head])
        && groups[k].header == db.orders[groups[k].head]
        && groups[k].header.orderId == groups[k].orderId
        && groups[k].total == SumPrices(groups[k].lines)
        && (forall e | e in groups[k].lines ::
              e.row in db.orders && keep(db.orders[e.row]) && db.orders[e.row].orderId == groups[k].orderId
              && e == EntryOf(db.orders, e.row))
  {
    var rows := Select(db.orders, scan, keep);
    var groups := Grouping(db.orders, rows);
    GroupingSound(db.orders, rows);
    forall k | 0 <= k < |groups|
      ensures && groups[k].head in db.orders && keep(db.orders[groups[k].head])
              && groups[k].header == db.orders[groups[k].head]
              && groups[k].header.orderId == groups[k].orderId
              && groups[k].total == SumPrices(groups[k].lines)
              && (forall e | e in groups[k].lines ::
                    e.row in db.orders && keep(db.orders[e.row]) && db.orders[e.row].orderId == groups[k].orderId
                    && e == EntryOf(db.orders, e.row))
    {
      assert groups[k].head in rows;
      forall e | e in groups[k].lines
        ensures e.row in db.orders && keep(db.orders[e.row]) && db.orders[e.row].orderId == groups[k].orderId
      {
        assert e.row in rows;
      }
    }
  }

  /** The grouping of one filter's rows, stated against the whole table. */
  lemma GroupingOfSelect(db: Db, scan: seq<RowId>, keep: OrderLine -> bool)
    requires IsScan(db, scan)
    ensures var groups := Grouping(db.orders, Select(db.orders, scan, keep));
      && (forall i, j | 0 <= i < j < |groups| :: groups[i].orderId != groups[j].orderId)
      && SortedNewestFirst(groups)
      && (forall r | r in db.orders && keep(db.orders[r]) ::
            exists k | 0 <= k < |groups| :: groups[k].orderId == db.orders[r].orderId && EntryOf(db.orders, r) in groups[k].lines)
      && (forall k | 0 <= k < |groups| ::
            && groups[k].head in db.orders && keep(db.orders[groups[k].head])
            && groups[k].header == db.orders[groups[k].head]
            && groups[k].header.orderId == groups[k].orderId
            && groups[k].total == SumPrices(groups[k].lines)
            && (forall e | e in groups[k].lines ::
                  e.row in db.orders && keep(db.orders[e.row]) && db.orders[e.row].orderId == groups[k].orderId
                  && e == EntryOf(db.orders, e.row)))
  {
    var rows := Select(db.orders, scan, keep);
    GroupingSound(db.orders, rows);
    GroupingNewestFirst(db.orders, rows);
    SelectedLinesListed(db, scan, keep);
    SelectedGroupsSound(db, scan, keep);
  }

  /** The listing of one filter: the rows it selects, grouped, then sorted. */
  method Listing(db: Db, scan: seq<RowId>, keep: OrderLine -> bool) returns (groups: seq<Group>)
    requires IsScan(db, scan)
    ensures forall i, j | 0 <= i < j < |groups| :: groups[i].orderId != groups[j].orderId
    ensures SortedNewestFirst(groups)
    ensures OncePerLine(groups)
    ensures forall k | 0 <= k < |groups| :: HeadIsNewestLine(db.orders, groups[k])
    ensures forall r | r in db.orders && keep(db.orders[r]) ::
      exists k | 0 <= k < |groups| :: groups[k].orderId == db.orders[r].orderId && EntryOf(db.orders, r) in groups[k].lines
    ensures forall k | 0 <= k < |groups| ::
      && groups[k].head in db.orders && keep(db.orders[groups[k].head])
      && groups[k].header == db.orders[groups[k].head]
      && groups[k].header.orderId == groups[k].orderId
      && groups[k].total == SumPrices(groups[k].lines)
      && (forall e | e in groups[k].lines ::
            e.row in db.orders && keep(db.orders[e.row]) && db.orders[e.row].orderId == groups[k].orderId
            && e == EntryOf(db.orders, e.row))
  {
    var rows := Select(db.orders, scan, keep);
    groups := GroupLines(db.orders, rows);
    GroupingOfSelect(db, scan, keep);
    GroupingOncePerLine(db.orders, rows);
    GroupingHeadsLead(db.orders, rows);
    SortKeepsSorted(groups);
    groups := SortNewestFirst(groups);
  }

  /** `user_orders`: the caller's lines, grouped, newest group first. */
  method UserOrders(db: Db, me: User, scan: seq<RowId>) returns (groups: seq<Group>)
    requires IsScan(db, scan)
    ensures forall i, j | 0 <= i < j < |groups| :: groups[i].orderId != groups[j].orderId
    ensures SortedNewestFirst(groups)
    ensures OncePerLine(groups)
    ensures forall k | 0 <= k < |groups| :: HeadIsNewestLine(db.orders, groups[k])
    ensures forall r | r in db.orders && db.orders[r].user == me.id ::
      exists k | 0 <= k < |groups| :: groups[k].orderId == db.orders[r].orderId && EntryOf(db.orders, r) in groups[k].lines
    ensures forall k | 0 <= k < |groups| ::
      && groups[k].header.user == me.id
      && groups[k].total == SumPrices(groups[k].lines)
      && (forall e | e in groups[k].lines :: e.row in db.orders && db.orders[e.row].user == me.id && db.orders[e.row].orderId == groups[k].orderId)
  {
    groups := Listing(db, scan, OwnedBy(me));
  }

  /**
   * `pharmacy_orders`: refused for a caller without a pharmacy; otherwise
   * the pharmacy's paid lines, grouped, newest group first. Only the lines
   * at this pharmacy appear, even when the group spans several pharmacies.
   */
  method PharmacyOrders(db: Db, me: User, scan: seq<RowId>) returns (r: Result<seq<Group>, Failure>)
    requires IsScan(db, scan)
    ensures me.pharmacy.None? <==> r.Failure?
    ensures r.Failure? ==> r.error.Forbidden?
    ensures r.Success? ==>
      var groups := r.value;
      && (forall i, j | 0 <= i < j < |groups| :: groups[i].orderId != groups[j].orderId)
      && SortedNewestFirst(groups)
      && OncePerLine(groups)
      && (forall k | 0 <= k < |groups| :: HeadIsNewestLine(db.orders, groups[k]))
      && (forall x | x in db.orders && db.orders[x].pharmacy == me.pharmacy && db.orders[x].payment == Paid ::
            exists k | 0 <= k < |groups| :: groups[k].orderId == db.orders[x].orderId && EntryOf(db.orders, x) in groups[k].lines)
      && (forall k | 0 <= k < |groups| ::
            && groups[k].total == SumPrices(groups[k].lines)
            && (forall e | e in groups[k].lines ::
                  e.row in db.orders && db.orders[e.row].pharmacy == me.pharmacy && db.orders[e.row].payment == Paid))
  {
    if me.pharmacy.None? {
      return Failure(Forbidden(NotPharmacyMsg));
    }
    var groups := Listing(db, scan, PaidAt(me.pharmacy.value));
    return Success(groups);
  }
}
