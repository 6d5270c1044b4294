// The backfill of plans.sort_order: plans without a position are appended behind those of their
// project that have one, in order of creation.

module SortOrders {
  import opened JsText
  import Sorting

  /** The columns that matter, the others as one text. */
  datatype Plan = Plan(id: int, projectId: Option<int>, createdAt: string, sortOrder: int, rest: string)

  /** `project_id ?? 0`: plans of no project and of a project 0 are one group. */
  function Group(p: Plan): int {
    if p.projectId.None? then 0 else p.projectId.value
  }

  predicate Before(a: Plan, b: Plan) {
    TextBefore(a.createdAt, b.createdAt) || (a.createdAt == b.createdAt && a.id < b.id)
  }

  lemma BeforeIsTotal(a: Plan, b: Plan)
    ensures a.id != b.id ==> Before(a, b) || Before(b, a)
    ensures !(Before(a, b) && Before(b, a)) && !Before(a, a)
  {
    TextOrderTotal(a.createdAt, b.createdAt);
  }

  lemma BeforeIsTransitive(a: Plan, b: Plan, c: Plan)
    requires Before(a, b) && Before(b, c)
    ensures Before(a, c)
  {
    if TextBefore(a.createdAt, b.createdAt) && TextBefore(b.createdAt, c.createdAt) {
      TextOrderTransitive(a.createdAt, b.createdAt, c.createdAt);
    }
  }

  predicate Placed(p: Plan) {
    p.sortOrder > 0
  }

  predicate DistinctIds(rows: seq<Plan>) {
    forall i, j | 0 <= i < j < |rows| :: rows[i].id != rows[j].id
  }

  // What the backfill means: a plan keeps its position, or its rank among those without one follows
  // the largest position of its group.

  /** The largest position of a group, 0 if there is none. */
  function MaxOrder(rows: seq<Plan>, g: int): nat {
    if rows == [] then 0
    else
      var m := MaxOrder(rows[..|rows| - 1], g);
      var p := rows[|rows| - 1];
      if Group(p) == g && p.sortOrder > m then p.sortOrder else m
  }

  /** The plans of p's group that have no position and come before p. */
  ghost function Earlier(rows: seq<Plan>, p: Plan): set<Plan> {
    set q | q in rows && Group(q) == Group(p) && !Placed(q) && Before(q, p)
  }

  ghost function NewOrder(rows: seq<Plan>, p: Plan): int {
    if Placed(p) then p.sortOrder else MaxOrder(rows, Group(p)) + 1 + |Earlier(rows, p)|
  }

  ghost function Positioned(rows: seq<Plan>, p: Plan): Plan {
    p.(sortOrder := NewOrder(rows, p))
  }

  ghost function Backfilled(rows: seq<Plan>): (r: seq<Plan>)
    ensures |r| == |rows|
    ensures forall i | 0 <= i < |rows| :: r[i] == Positioned(rows, rows[i])
  {
    seq(|rows|, i requires 0 <= i < |rows| => Positioned(rows, rows[i]))
  }

  // Properties of the result.

  lemma {:induction false} MaxOrderIsMax(rows: seq<Plan>, g: int)
    ensures forall q | q in rows && Group(q) == g :: q.sortOrder <= MaxOrder(rows, g)
    ensures MaxOrder(rows, g) == 0 || exists q | q in rows :: Group(q) == g && q.sortOrder == MaxOrder(rows, g)
  {
    if rows == [] {
    } else {
      var front, last := rows[..|rows| - 1], rows[|rows| - 1];
      MaxOrderIsMax(front, g);
      assert rows == front + [last];
    }
  }

  /** Every plan ends with a positive position, and a positive one that it had is kept. */
  lemma EveryPlanIsPlaced(rows: seq<Plan>, i: nat)
    requires i < |rows|
    ensures Backfilled(rows)[i].sortOrder > 0
    ensures rows[i].sortOrder > 0 ==> Backfilled(rows)[i] == rows[i]
    ensures Backfilled(rows)[i].(sortOrder := rows[i].sortOrder) == rows[i]
  {
  }

  /** Of two plans of a project, or of none or a project 0, that had no position, the one created first gets the smaller one, or else that with the smaller id. */
  lemma CreationDecides(rows: seq<Plan>, i: nat, j: nat)
    requires i < |rows| && j < |rows| && rows[i].projectId.UnwrapOr(0) == rows[j].projectId.UnwrapOr(0)
    requires rows[i].sortOrder <= 0 && rows[j].sortOrder <= 0
    requires var a, b := rows[i], rows[j]; TextBefore(a.createdAt, b.createdAt) || (a.createdAt == b.createdAt && a.id < b.id)
    ensures 0 < Backfilled(rows)[i].sortOrder < Backfilled(rows)[j].sortOrder
  {
    NewOrdersAreConsecutive(rows, rows[i], rows[j]);
  }

  /** New positions lie above all old ones of the project, follow the order of creation, and are consecutive. */
  lemma NewOrdersAreConsecutive(rows: seq<Plan>, p: Plan, q: Plan)
    requires p in rows && q in rows && Group(p) == Group(q) && !Placed(p)
    ensures NewOrder(rows, p) > MaxOrder(rows, Group(p)) >= q.sortOrder
    ensures Earlier(rows, p) == {} ==> NewOrder(rows, p) == MaxOrder(rows, Group(p)) + 1
    ensures !Placed(q) && Before(p, q) ==> NewOrder(rows, p) < NewOrder(rows, q)
    ensures !Placed(q) && Earlier(rows, q) == Earlier(rows, p) + {p} ==> NewOrder(rows, q) == NewOrder(rows, p) + 1
  {
    MaxOrderIsMax(rows, Group(p));
    if !Placed(q) && Before(p, q) {
      EarlierGrows(rows, p, q);
    }
  }

  lemma EarlierGrows(rows: seq<Plan>, p: Plan, q: Plan)
    requires p in rows && Group(p) == Group(q) && !Placed(p) && Before(p, q)
    ensures |Earlier(rows, p)| < |Earlier(rows, q)|
  {
    BeforeIsTotal(p, p);
    forall r | r in Earlier(rows, p) ensures r in Earlier(rows, q) {
      BeforeIsTransitive(r, p, q);
    }
    Smaller(Earlier(rows, p), Earlier(rows, q), p);
  }

  lemma Smaller<T>(a: set<T>, b: set<T>, x: T)
    requires a <= b && x in b && x !in a
    ensures |a| < |b|
  {
    Subset(a, b - {x});
  }

  lemma {:induction false} Subset<T>(a: set<T>, b: set<T>)
    requires a <= b
    ensures |a| <= |b|
    decreases |a|
  {
    if a == {} {
    } else {
      var x :| x in a;
      Subset(a - {x}, b - {x});
    }
  }

  /** No two plans of a project have the same position. */
  ghost predicate DistinctOrders(rows: seq<Plan>) {
    forall i, j | 0 <= i < j < |rows| && Group(rows[i]) == Group(rows[j]) && Placed(rows[i]) && Placed(rows[j]) ::
      rows[i].sortOrder != rows[j].sortOrder
  }

  /** Positions end pairwise distinct within a project exactly if the old ones were. */
  lemma OrdersAreDistinctExactly(rows: seq<Plan>)
    requires DistinctIds(rows)
    ensures DistinctOrders(Backfilled(rows)) <==> DistinctOrders(rows)
  {
    var r := Backfilled(rows);
    forall i, j | 0 <= i < j < |rows| && Group(rows[i]) == Group(rows[j])
      ensures r[i].sortOrder == r[j].sortOrder <==> Placed(rows[i]) && Placed(rows[j]) && rows[i].sortOrder == rows[j].sortOrder
    {
      ClashExactly(rows, i, j);
    }
    if DistinctOrders(r) {
      forall i, j | 0 <= i < j < |rows| && Group(rows[i]) == Group(rows[j]) && Placed(rows[i]) && Placed(rows[j])
        ensures rows[i].sortOrder != rows[j].sortOrder
      {
        assert Group(r[i]) == Group(r[j]) && Placed(r[i]) && Placed(r[j]);
      }
    }
  }

  lemma ClashExactly(rows: seq<Plan>, i: nat, j: nat)
    requires DistinctIds(rows) && i < j < |rows| && Group(rows[i]) == Group(rows[j])
    ensures NewOrder(rows, rows[i]) == NewOrder(rows, rows[j])
            <==> Placed(rows[i]) && Placed(rows[j]) && rows[i].sortOrder == rows[j].sortOrder
  {
    var p, q := rows[i], rows[j];
    if !Placed(p) {
      NewOrdersAreConsecutive(rows, p, q);
    }
    if !Placed(q) {
      NewOrdersAreConsecutive(rows, q, p);
    }
    BeforeIsTotal(p, q);
  }

  /** A second backfill changes nothing. */
  lemma BackfillIdempotent(rows: seq<Plan>)
    ensures Backfilled(Backfilled(rows)) == Backfilled(rows)
  {
  }

  // The loop over the sorted and grouped rows.

  /** ORDER BY COALESCE(project_id, 0), created_at, id. */
  predicate Less(a: Plan, b: Plan) {
    Group(a) < Group(b) || (Group(a) == Group(b) && Before(a, b))
  }

  lemma LessIsTransitive(a: Plan, b: Plan, c: Plan)
    requires Less(a, b) && Less(b, c)
    ensures Less(a, c)
  {
    if Group(a) == Group(b) == Group(c) {
      BeforeIsTransitive(a, b, c);
    }
  }

  predicate Sorted(rows: seq<Plan>) {
    forall i, j | 0 <= i < j < |rows| :: Less(rows[i], rows[j])
  }

  function ByLess(): Sorting.Order<Plan> {
    (a: Plan, b: Plan) => Less(a, b)
  }

  function OrderBy(rows: seq<Plan>): seq<Plan> {
    Sorting.Sort(ByLess(), rows)
  }

  lemma OrderByHas(rows: seq<Plan>, x: Plan)
    ensures x in OrderBy(rows) <==> x in rows
  {
    Sorting.SortHas(ByLess(), rows, x);
  }

  lemma OrderBySorts(rows: seq<Plan>)
    requires DistinctIds(rows)
    ensures Sorted(OrderBy(rows))
  {
    forall a, b, c | Less(a, b) && Less(b, c) ensures Less(a, c) {
      LessIsTransitive(a, b, c);
    }
    forall i, j | 0 <= i < j < |rows| ensures Less(rows[i], rows[j]) || Less(rows[j], rows[i]) {
      BeforeIsTotal(rows[i], rows[j]);
    }
    Sorting.SortSorts(ByLess(), rows);
    assert Sorting.Ascending(ByLess(), OrderBy(rows));
  }

  /** The rows of one group, in their order. */
  function Of(rows: seq<Plan>, g: int): seq<Plan> {
    if rows == [] then []
    else
      var front := Of(rows[..|rows| - 1], g);
      if Group(rows[|rows| - 1]) == g then front + [rows[|rows| - 1]] else front
  }

  lemma {:induction false} OfHas(rows: seq<Plan>, g: int, x: Plan)
    ensures x in Of(rows, g) <==> x in rows && Group(x) == g
  {
    if rows == [] {
    } else {
      OfHas(rows[..|rows| - 1], g, x);
      assert rows == rows[..|rows| - 1] + [rows[|rows| - 1]];
    }
  }

  lemma {:induction false} OfSorted(rows: seq<Plan>, g: int)
    requires Sorted(rows)
    ensures Sorted(Of(rows, g))
  {
    if rows == [] {
    } else {
      var front, last := rows[..|rows| - 1], rows[|rows| - 1];
      OfSorted(front, g);
      forall q | q in Of(front, g) ensures Less(q, last) {
        OfHas(front, g, q);
      }
    }
  }

  /** How many of the rows have no position. */
  function Unplaced(rows: seq<Plan>): nat {
    if rows == [] then 0
    else Unplaced(rows[..|rows| - 1]) + if Placed(rows[|rows| - 1]) then 0 else 1
  }

  lemma {:induction false} UnplacedIsCard(rows: seq<Plan>)
    requires Sorted(rows)
    ensures Unplaced(rows) == |set q | q in rows && !Placed(q)|
  {
    if rows == [] {
    } else {
      var front, last := rows[..|rows| - 1], rows[|rows| - 1];
      UnplacedIsCard(front);
      NotAmong(rows, |rows| - 1);
      AddOne(front, last);
      assert rows == front + [last];
    }
  }

  lemma NotAmong(rows: seq<Plan>, j: nat)
    requires Sorted(rows) && j < |rows|
    ensures rows[j] !in rows[..j]
  {
    BeforeIsTotal(rows[j], rows[j]);
  }

  lemma AddOne(front: seq<Plan>, last: Plan)
    requires last !in front
    ensures |set q | q in front + [last] && !Placed(q)|
            == |set q | q in front && !Placed(q)| + if Placed(last) then 0 else 1
  {
    var before := set q | q in front && !Placed(q);
    assert (set q | q in front + [last] && !Placed(q)) == if Placed(last) then before else before + {last};
  }

  /** In the ordered group, the earlier plans without position are those that precede. */
  lemma RankInGroup(rows: seq<Plan>, group: seq<Plan>, g: int, j: nat)
    requires Sorted(group) && j < |group|
    requires forall x :: x in group <==> x in rows && Group(x) == g
    ensures |Earlier(rows, group[j])| == Unplaced(group[..j])
  {
    var p := group[j];
    assert p in group;
    UnplacedIsCard(group[..j]);
    forall q ensures q in Earlier(rows, p) <==> q in group[..j] && !Placed(q) {
      if q in Earlier(rows, p) {
        assert q in group;
        var i :| 0 <= i < |group| && group[i] == q;
        BeforeIsTotal(p, q);
        assert j < i ==> Less(p, q);
      } else if q in group[..j] {
        var i :| 0 <= i < j && group[i] == q;
        assert q in group && Less(group[i], group[j]);
      }
    }
    assert Earlier(rows, p) == set q | q in group[..j] && !Placed(q);
  }

  /** UPDATE plans SET sort_order = ? WHERE id = ?. */
  function SetOrder(rows: seq<Plan>, id: int, order: int): (r: seq<Plan>)
    ensures |r| == |rows|
    ensures forall i | 0 <= i < |rows| :: r[i] == if rows[i].id == id then rows[i].(sortOrder := order) else rows[i]
  {
    seq(|rows|, i requires 0 <= i < |rows| => if rows[i].id == id then rows[i].(sortOrder := order) else rows[i])
  }

  ghost predicate IsGroup(plans: seq<Plan>, group: seq<Plan>, g: int) {
    Sorted(group) && forall x :: x in group <==> x in plans && Group(x) == g
  }

  /** The largest position of an ordered group is that of the group in the table. */
  method LargestOrder(ghost plans: seq<Plan>, group: seq<Plan>, ghost g: int) returns (max: nat)
    requires IsGroup(plans, group, g)
    ensures max == MaxOrder(plans, g)
  {
    max := 0;
    for i := 0 to |group|
      invariant forall k | 0 <= k < i :: group[k].sortOrder <= max
      invariant max == 0 || exists k | 0 <= k < i :: group[k].sortOrder == max
    {
      if group[i].sortOrder > max {
        max := group[i].sortOrder;
      }
    }
    MaxOrderIsMax(plans, g);
    if max != 0 {
      var k :| 0 <= k < |group| && group[k].sortOrder == max;
      assert group[k] in group;
    }
    assert MaxOrder(plans, g) <= max;
  }

  /** The rows among `done` have their final position, the others are as at the start. */
  ghost predicate Partly(plans: seq<Plan>, start: seq<Plan>, updated: seq<Plan>, done: seq<Plan>) {
    && |start| == |updated| == |plans|
    && forall x | 0 <= x < |plans| :: updated[x] == if plans[x] in done then Positioned(plans, plans[x]) else start[x]
  }

  method BackfillGroup(ghost plans: seq<Plan>, start: seq<Plan>, group: seq<Plan>, ghost g: int) returns (updated: seq<Plan>)
    requires DistinctIds(plans) && IsGroup(plans, group, g) && |start| == |plans|
    requires forall x | 0 <= x < |plans| :: start[x].id == plans[x].id && (Group(plans[x]) == g ==> start[x] == plans[x])
    ensures Partly(plans, start, updated, group)
  {
    var nextOrder := LargestOrder(plans, group, g);
    updated := start;
    for j := 0 to |group|
      invariant nextOrder == MaxOrder(plans, g) + Unplaced(group[..j])
      invariant Partly(plans, start, updated, group[..j])
    {
      var plan := group[j];
      assert group[..j + 1][..j] == group[..j];
      if !Placed(plan) {
        nextOrder := nextOrder + 1;
        PlaceNext(plans, start, updated, group, g, j, nextOrder);
        updated := SetOrder(updated, plan.id, nextOrder);
      } else {
        SkipPlaced(plans, start, updated, group, g, j);
      }
    }
    assert group[..|group|] == group;
  }

  lemma PlaceNext(plans: seq<Plan>, start: seq<Plan>, updated: seq<Plan>, group: seq<Plan>, g: int, j: nat, order: int)
    requires DistinctIds(plans) && IsGroup(plans, group, g) && |start| == |plans| && j < |group|
    requires forall x | 0 <= x < |plans| :: start[x].id == plans[x].id && (Group(plans[x]) == g ==> start[x] == plans[x])
    requires Partly(plans, start, updated, group[..j])
    requires !Placed(group[j]) && order == MaxOrder(plans, g) + Unplaced(group[..j]) + 1
    ensures Partly(plans, start, SetOrder(updated, group[j].id, order), group[..j + 1])
  {
    assert group[j] in group && group[..j + 1] == group[..j] + [group[j]];
    RankInGroup(plans, group, g, j);
    assert NewOrder(plans, group[j]) == order;
    var r := SetOrder(updated, group[j].id, order);
    forall x: nat | x < |plans|
      ensures r[x] == if plans[x] in group[..j + 1] then Positioned(plans, plans[x]) else start[x]
    {
      OnlyOneRow(plans, group, g, j, x);
    }
  }

  lemma SkipPlaced(plans: seq<Plan>, start: seq<Plan>, updated: seq<Plan>, group: seq<Plan>, g: int, j: nat)
    requires DistinctIds(plans) && IsGroup(plans, group, g) && |start| == |plans| && j < |group|
    requires forall x | 0 <= x < |plans| :: Group(plans[x]) == g ==> start[x] == plans[x]
    requires Partly(plans, start, updated, group[..j]) && Placed(group[j])
    ensures Partly(plans, start, updated, group[..j + 1])
  {
    assert group[j] in group && group[..j + 1] == group[..j] + [group[j]];
  }

  /** Only one row has the identifier of a plan, and the plan itself does not precede it in its group. */
  lemma OnlyOneRow(plans: seq<Plan>, group: seq<Plan>, g: int, j: nat, x: nat)
    requires DistinctIds(plans) && IsGroup(plans, group, g) && j < |group| && x < |plans|
    ensures plans[x].id == group[j].id <==> plans[x] == group[j]
    ensures group[j] !in group[..j]
  {
    assert group[j] in group;
    var y :| 0 <= y < |plans| && plans[y] == group[j];
    assert x < y || x == y || y < x;
    NotAmong(group, j);
  }

  lemma GroupsOfOrdered(plans: seq<Plan>, g: int)
    requires DistinctIds(plans)
    ensures IsGroup(plans, Of(OrderBy(plans), g), g)
  {
    OrderBySorts(plans);
    OfSorted(OrderBy(plans), g);
    forall x: Plan ensures x in Of(OrderBy(plans), g) <==> x in plans && Group(x) == g {
      OfHas(OrderBy(plans), g, x);
      OrderByHas(plans, x);
    }
  }

  /** The map from projects to their plans, and its keys in order of insertion. */
  method CollectByProject(rows: seq<Plan>) returns (keys: seq<int>, byProject: map<int, seq<Plan>>)
    ensures forall k :: k in byProject <==> k in keys
    ensures forall k | k in byProject :: byProject[k] == Of(rows, k)
    ensures forall k | k !in byProject :: Of(rows, k) == []
    ensures forall a, b | 0 <= a < b < |keys| :: keys[a] != keys[b]
  {
    keys, byProject := [], map[];
    for i := 0 to |rows|
      invariant forall k :: k in byProject <==> k in keys
      invariant forall k | k in byProject :: byProject[k] == Of(rows[..i], k)
      invariant forall k | k !in byProject :: Of(rows[..i], k) == []
      invariant forall a, b | 0 <= a < b < |keys| :: keys[a] != keys[b]
    {
      var key := Group(rows[i]);
      assert rows[..i + 1][..i] == rows[..i];
      if key !in byProject {
        keys := keys + [key];
        byProject := byProject[key := []];
      }
      byProject := byProject[key := byProject[key] + [rows[i]]];
    }
    assert rows[..|rows|] == rows;
  }

  /** `backfillPlanSortOrders`: select in order, collect by project, then go through each project. */
  method BackfillPlanSortOrders(plans: seq<Plan>) returns (updated: seq<Plan>)
    requires DistinctIds(plans)
    ensures updated == Backfilled(plans)
  {
    var keys, byProject := CollectByProject(OrderBy(plans));
    updated := plans;
    for n := 0 to |keys|
      invariant |updated| == |plans|
      invariant forall x | 0 <= x < |plans| ::
                  updated[x] == if Group(plans[x]) in keys[..n] then Positioned(plans, plans[x]) else plans[x]
    {
      var g := keys[n];
      assert g in keys && g !in keys[..n] && keys[..n + 1] == keys[..n] + [g];
      GroupsOfOrdered(plans, g);
      updated := BackfillGroup(plans, updated, byProject[g], g);
    }
    forall x | 0 <= x < |plans| ensures updated[x] == Positioned(plans, plans[x]) {
      GroupsOfOrdered(plans, Group(plans[x]));
      assert plans[x] in Of(OrderBy(plans), Group(plans[x]));
      assert keys[..|keys|] == keys;
    }
  }
}
