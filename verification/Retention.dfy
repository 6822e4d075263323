/**
 What retention selects and when it refuses (src/sluicery/core/retention.py, planning half).
 Calendar dates are given as parsed; upload dates are compared as the strings they are.
 */
module Retention {
  import opened Common

  datatype Policy = Policy(enabled: bool, keepLatest: Option<nat>, maxAgeDays: Option<nat>)

  datatype Item = Item(id: nat, uploadDate: Option<string>, playlistIndex: Option<nat>, uploadDay: Option<int>)

  datatype Row = Row(artifact: nat, target: nat, item: nat, downloaded: bool, storage: nat, path: string)

  datatype Refusal = TooMany | Majority | Unsafe(artifact: nat)

  datatype Plan = Plan(policy: Policy, candidates: seq<Row>, total: nat, blocked: seq<Refusal>)
  {
    predicate Deletable() { policy.enabled && blocked == [] }
  }

  // ---- ranking ----

  predicate LexLess(a: string, b: string) {
    b != "" && (a == "" || a[0] < b[0] || (a[0] == b[0] && LexLess(a[1..], b[1..])))
  }

  lemma {:induction false} LexTotal(a: string, b: string)
    ensures a == b || LexLess(a, b) || LexLess(b, a)
    ensures !(LexLess(a, b) && LexLess(b, a))
    ensures !LexLess(a, a)
  {
    if a != "" && b != "" && a[0] == b[0] {
      LexTotal(a[1..], b[1..]);
      assert a == [a[0]] + a[1..] && b == [b[0]] + b[1..];
    }
    if a != "" {
      LexTotal(a[1..], a[1..]);
    }
  }

  lemma {:induction false} LexTransitive(a: string, b: string, c: string)
    requires LexLess(a, b) && LexLess(b, c)
    ensures LexLess(a, c)
  {
    if a != "" && a[0] == b[0] && b[0] == c[0] {
      LexTransitive(a[1..], b[1..], c[1..]);
    }
  }

  /** What an item without an upload date is ranked by. */
  const NO_DATE := "99999999"

  function DateKey(i: Item): string {
    if i.uploadDate.Some? && i.uploadDate.value != "" then i.uploadDate.value else NO_DATE
  }

  function IndexKey(i: Item): nat { if i.playlistIndex.Some? then i.playlistIndex.value else 0 }

  /** Kept before: later date, then smaller playlist index, then greater id. */
  predicate Outranks(a: Item, b: Item) {
    var d, e := DateKey(a), DateKey(b);
    if d != e then LexLess(e, d)
    else if IndexKey(a) != IndexKey(b) then IndexKey(a) < IndexKey(b)
    else a.id > b.id
  }

  lemma OutranksOrder(a: Item, b: Item, c: Item)
    ensures a.id != b.id ==> Outranks(a, b) || Outranks(b, a)
    ensures !(Outranks(a, b) && Outranks(b, a))
    ensures Outranks(a, b) && Outranks(b, c) ==> Outranks(a, c)
  {
    var d, e, f := DateKey(a), DateKey(b), DateKey(c);
    LexTotal(d, e);
    if LexLess(e, d) && LexLess(f, e) {
      LexTransitive(f, e, d);
    }
  }

  /** Sorting, one item at a time. */
  function Insert(x: Item, sorted: seq<Item>): seq<Item> {
    if sorted == [] then [x]
    else if Outranks(x, sorted[0]) then [x] + sorted
    else [sorted[0]] + Insert(x, sorted[1..])
  }

  function Sorted(items: seq<Item>): seq<Item> {
    if items == [] then [] else Insert(items[|items| - 1], Sorted(items[..|items| - 1]))
  }

  ghost predicate InOrder(items: seq<Item>) {
    forall i, j :: 0 <= i < j < |items| ==> Outranks(items[i], items[j])
  }

  ghost predicate DistinctIds(items: seq<Item>) {
    forall i, j :: 0 <= i < j < |items| ==> items[i].id != items[j].id
  }

  lemma InOrderCons(x: Item, rest: seq<Item>)
    requires InOrder(rest) && forall k :: 0 <= k < |rest| ==> Outranks(x, rest[k])
    ensures InOrder([x] + rest)
  {
    var all := [x] + rest;
    forall i, j | 0 <= i < j < |all|
      ensures Outranks(all[i], all[j])
    {
      assert all[j] == rest[j - 1];
      if i > 0 {
        assert all[i] == rest[i - 1];
      }
    }
  }

  /** What outranks the first of a sorted list outranks all of it. */
  lemma OutranksAll(x: Item, sorted: seq<Item>)
    requires sorted != [] && InOrder(sorted) && Outranks(x, sorted[0])
    ensures forall k :: 0 <= k < |sorted| ==> Outranks(x, sorted[k])
  {
    forall k | 0 < k < |sorted|
      ensures Outranks(x, sorted[k])
    {
      OutranksOrder(x, sorted[0], sorted[k]);
    }
  }

  lemma {:induction false} InsertKeeps(x: Item, sorted: seq<Item>)
    requires InOrder(sorted) && forall k :: 0 <= k < |sorted| ==> sorted[k].id != x.id
    ensures InOrder(Insert(x, sorted))
    ensures multiset(Insert(x, sorted)) == multiset(sorted) + multiset{x}
  {
    if sorted != [] {
      assert sorted == [sorted[0]] + sorted[1..];
      if Outranks(x, sorted[0]) {
        OutranksAll(x, sorted);
        InOrderCons(x, sorted);
      } else {
        InsertKeeps(x, sorted[1..]);
        InsertBehind(x, sorted);
      }
    }
  }

  lemma InsertBehind(x: Item, sorted: seq<Item>)
    requires sorted != [] && InOrder(sorted) && sorted[0].id != x.id && !Outranks(x, sorted[0])
    requires var rest := Insert(x, sorted[1..]);
             InOrder(rest) && multiset(rest) == multiset(sorted[1..]) + multiset{x}
    ensures InOrder([sorted[0]] + Insert(x, sorted[1..]))
  {
    var rest := Insert(x, sorted[1..]);
    OutranksOrder(x, sorted[0], x);
    forall j | 0 <= j < |rest|
      ensures Outranks(sorted[0], rest[j])
    {
      assert rest[j] in multiset(rest);
      if rest[j] != x {
        var k :| 0 <= k < |sorted[1..]| && sorted[1..][k] == rest[j];
        assert sorted[k + 1] == rest[j];
      }
    }
    InOrderCons(sorted[0], rest);
  }

  lemma {:induction false} SortedFacts(items: seq<Item>)
    requires DistinctIds(items)
    ensures InOrder(Sorted(items)) && multiset(Sorted(items)) == multiset(items)
    ensures |Sorted(items)| == |items|
  {
    if items != [] {
      var init, last := items[..|items| - 1], items[|items| - 1];
      assert items == init + [last];
      SortedFacts(init);
      forall k | 0 <= k < |Sorted(init)|
        ensures Sorted(init)[k].id != last.id
      {
        assert Sorted(init)[k] in multiset(init);
        var j :| 0 <= j < |init| && init[j] == Sorted(init)[k];
      }
      InsertKeeps(last, Sorted(init));
    }
    assert |multiset(items)| == |items| && |multiset(Sorted(items))| == |Sorted(items)|;
  }

  // ---- selection ----

  /** The ids the keep_latest rule keeps. */
  function KeptIds(items: seq<Item>, keep: nat): set<nat> {
    set i | i in First(Sorted(items), keep) :: i.id
  }

  function First(items: seq<Item>, keep: nat): seq<Item> { if keep <= |items| then items[..keep] else items }

  predicate TooOld(i: Item, today: int, days: nat) { i.uploadDay.Some? && i.uploadDay.value < today - days }

  function Selected(items: seq<Item>, policy: Policy, today: int): set<nat> {
    (if policy.keepLatest.Some? then
       set k | 0 <= k < |items| && items[k].id !in KeptIds(items, policy.keepLatest.value) :: items[k].id
     else {})
    + (if policy.maxAgeDays.Some? then
         set k | 0 <= k < |items| && TooOld(items[k], today, policy.maxAgeDays.value) :: items[k].id
       else {})
  }

  function CandidatesFrom(rows: seq<Row>, selected: set<nat>): (r: seq<Row>)
    ensures forall k :: 0 <= k < |r| ==> r[k] in rows && r[k].item in selected && r[k].downloaded
    ensures forall k :: 0 <= k < |rows| && rows[k].item in selected && rows[k].downloaded ==> rows[k] in r
    ensures |r| <= |rows|
  {
    if rows == [] then []
    else
      var last := rows[|rows| - 1];
      CandidatesFrom(rows[..|rows| - 1], selected) + if last.item in selected && last.downloaded then [last] else []
  }

  function UnsafeRows(candidates: seq<Row>, unsafe: set<nat>): (r: seq<Refusal>)
    ensures r == [] <==> forall k :: 0 <= k < |candidates| ==> candidates[k].artifact !in unsafe
  {
    if candidates == [] then []
    else
      UnsafeRows(candidates[..|candidates| - 1], unsafe)
      + if candidates[|candidates| - 1].artifact in unsafe then [Unsafe(candidates[|candidates| - 1].artifact)] else []
  }

  /** unsafe holds the artifacts whose file could not be inspected with a strong identity of the recorded size. */
  function BuildPlan(
    rows: seq<Row>, items: seq<Item>, policy: Policy, limit: int, today: int, unsafe: set<nat>): Option<Plan>
  {
    if limit <= 0 then None
    else if !policy.enabled then Some(Plan(policy, [], |rows|, []))
    else
      var candidates := CandidatesFrom(rows, Selected(items, policy, today));
      Some(Plan(policy, candidates, |rows|,
                UnsafeRows(candidates, unsafe) + GuardReasons(|candidates|, limit, |rows|)))
  }

  function GuardReasons(count: nat, limit: int, total: nat): seq<Refusal> {
    (if count > limit then [TooMany] else []) + (if total != 0 && count * 2 > total then [Majority] else [])
  }

  lemma CandidatesNext(rows: seq<Row>, selected: set<nat>, k: nat)
    requires k < |rows|
    ensures CandidatesFrom(rows[..k + 1], selected)
         == CandidatesFrom(rows[..k], selected) + if rows[k].item in selected && rows[k].downloaded then [rows[k]]
            else []
  {
    assert rows[..k + 1][..k] == rows[..k];
  }

  lemma UnsafeNext(candidates: seq<Row>, row: Row, unsafe: set<nat>)
    ensures UnsafeRows(candidates + [row], unsafe)
         == UnsafeRows(candidates, unsafe) + if row.artifact in unsafe then [Unsafe(row.artifact)] else []
  {
    assert (candidates + [row])[..|candidates|] == candidates;
  }

  /** The planner in imperative form: candidates and reasons gathered in one pass over the rows. */
  method BuildRetentionPlan(
    rows: seq<Row>, items: seq<Item>, policy: Policy, limit: int, today: int, unsafe: set<nat>)
    returns (plan: Option<Plan>)
    ensures plan == BuildPlan(rows, items, policy, limit, today, unsafe)
  {
    if limit <= 0 {
      return None;
    }
    if !policy.enabled {
      return Some(Plan(policy, [], |rows|, []));
    }
    var selected := Selected(items, policy, today);
    var candidates, blocked := GatherCandidates(rows, selected, unsafe);
    blocked := blocked + GuardReasons(|candidates|, limit, |rows|);
    plan := Some(Plan(policy, candidates, |rows|, blocked));
  }

  method GatherCandidates(rows: seq<Row>, selected: set<nat>, unsafe: set<nat>)
    returns (candidates: seq<Row>, blocked: seq<Refusal>)
    ensures candidates == CandidatesFrom(rows, selected) && blocked == UnsafeRows(candidates, unsafe)
  {
    candidates, blocked := [], [];
    for k := 0 to |rows|
      invariant candidates == CandidatesFrom(rows[..k], selected) && blocked == UnsafeRows(candidates, unsafe)
    {
      CandidatesNext(rows, selected, k);
      if rows[k].item in selected && rows[k].downloaded {
        UnsafeNext(candidates, rows[k], unsafe);
        candidates := candidates + [rows[k]];
        if rows[k].artifact in unsafe {
          blocked := blocked + [Unsafe(rows[k].artifact)];
        }
      }
    }
    assert rows[..|rows|] == rows;
  }

  // ---- results ----

  /**
   Whatever the policy, a plan that may run deletes at most the limit and never more than half; and it is
   refused otherwise.
   */
  lemma GuardsHold(
    rows: seq<Row>, items: seq<Item>, policy: Policy, limit: int, today: int, unsafe: set<nat>)
    requires limit > 0 && policy.enabled
    ensures var plan := BuildPlan(rows, items, policy, limit, today, unsafe).value;
            plan.Deletable() <==>
              && |plan.candidates| <= limit && 2 * |plan.candidates| <= |rows|
              && forall k :: 0 <= k < |plan.candidates| ==> plan.candidates[k].artifact !in unsafe
  {
  }

  /** Without a positive limit there is no plan, and while retention is switched off nothing is listed. */
  lemma PlannedExactly(rows: seq<Row>, items: seq<Item>, policy: Policy, limit: int, today: int, unsafe: set<nat>)
    ensures var plan := BuildPlan(rows, items, policy, limit, today, unsafe);
            && (plan == None <==> limit <= 0)
            && (limit > 0 ==> plan.value.policy == policy && plan.value.total == |rows|)
            && (limit > 0 && !policy.enabled ==> plan.value.candidates == [] && !plan.value.Deletable())
  {
  }

  lemma {:induction false} IdCount(items: seq<Item>)
    requires DistinctIds(items)
    ensures |set i | i in items :: i.id| == |items|
  {
    if items != [] {
      var init, last := items[..|items| - 1], items[|items| - 1];
      assert items == init + [last];
      IdCount(init);
      assert last.id !in set i | i in init :: i.id;
      assert (set i | i in items :: i.id) == (set i | i in init :: i.id) + {last.id};
    }
  }

  /** keep_latest keeps exactly min(k, n) of n items. */
  lemma KeptCount(items: seq<Item>, keep: nat)
    requires DistinctIds(items)
    ensures |KeptIds(items, keep)| == if keep <= |items| then keep else |items|
  {
    SortedFacts(items);
    var kept := First(Sorted(items), keep);
    forall i, j | 0 <= i < j < |kept|
      ensures kept[i].id != kept[j].id
    {
      SortedDistinct(items, i, j);
    }
    IdCount(kept);
  }

  /** Two places of the sorted list hold two items. */
  lemma SortedDistinct(items: seq<Item>, i: nat, j: nat)
    requires DistinctIds(items) && i < j < |Sorted(items)|
    ensures Sorted(items)[i].id != Sorted(items)[j].id
  {
    var ordered := Sorted(items);
    SortedFacts(items);
    assert ordered[i] in multiset(items) && ordered[j] in multiset(items);
    var p :| 0 <= p < |items| && items[p] == ordered[i];
    var q :| 0 <= q < |items| && items[q] == ordered[j];
    OutranksOrder(ordered[i], ordered[j], ordered[i]);
  }

  /**
   With keep_latest alone: an item in the kept set loses nothing, and no kept item ranks below one
   that loses an artifact.
   */
  lemma KeepLatestSelects(
    rows: seq<Row>, items: seq<Item>, keep: nat, limit: int, today: int, unsafe: set<nat>, x: nat,
    y: nat)
    requires DistinctIds(items) && limit > 0 && x < |items| && y < |items|
    requires items[x].id in KeptIds(items, keep)
    ensures var plan := BuildPlan(rows, items, Policy(true, Some(keep), None), limit, today, unsafe).value;
            && (forall k :: 0 <= k < |plan.candidates| ==> plan.candidates[k].item != items[x].id)
            && ((exists k :: 0 <= k < |plan.candidates| && plan.candidates[k].item == items[y].id)
               ==> Outranks(items[x], items[y]))
  {
    if items[y].id in Selected(items, Policy(true, Some(keep), None), today) {
      var i := KeptPlace(items, keep, x);
      var j := Place(items, y);
      FirstHolds(Sorted(items), keep, j);
      InSortedOrder(items, i, j);
    }
  }

  /** Where an item stands in the sorted list. */
  lemma Place(items: seq<Item>, x: nat) returns (j: nat)
    requires DistinctIds(items) && x < |items|
    ensures j < |Sorted(items)| && Sorted(items)[j] == items[x]
  {
    SameMembers(items);
    assert items[x] in Sorted(items);
    j :| 0 <= j < |Sorted(items)| && Sorted(items)[j] == items[x];
  }

  lemma KeptPlace(items: seq<Item>, keep: nat, x: nat) returns (i: nat)
    requires DistinctIds(items) && x < |items| && items[x].id in KeptIds(items, keep)
    ensures i < |Sorted(items)| && i < keep && Sorted(items)[i] == items[x]
  {
    var kept :| kept in First(Sorted(items), keep) && kept.id == items[x].id;
    i :| 0 <= i < |First(Sorted(items), keep)| && First(Sorted(items), keep)[i] == kept;
    IdDetermines(items, i, x);
  }

  lemma InSortedOrder(items: seq<Item>, i: nat, j: nat)
    requires DistinctIds(items) && i < j < |Sorted(items)|
    ensures Outranks(Sorted(items)[i], Sorted(items)[j])
  {
    SortedFacts(items);
  }

  lemma FirstHolds(items: seq<Item>, keep: nat, j: nat)
    requires j < |items|
    ensures j < keep ==> items[j] in First(items, keep)
  {
  }

  lemma IdDetermines(items: seq<Item>, i: nat, x: nat)
    requires DistinctIds(items) && i < |Sorted(items)| && x < |items|
             && Sorted(items)[i].id == items[x].id
    ensures Sorted(items)[i] == items[x]
  {
    SortedFacts(items);
    assert Sorted(items)[i] in multiset(items);
    var p :| 0 <= p < |items| && items[p] == Sorted(items)[i];
    assert p == x;
  }

  /** The ids of the items ranked above one. */
  function Above(items: seq<Item>, item: Item): set<nat> {
    set i | i in items && Outranks(i, item) :: i.id
  }

  /** In the sorted list those are the ones before it. */
  lemma AboveIsBefore(items: seq<Item>, j: nat)
    requires DistinctIds(items) && j < |Sorted(items)|
    ensures |Above(items, Sorted(items)[j])| == j
  {
    var ordered := Sorted(items);
    forall i: nat | i < |ordered|
      ensures Outranks(ordered[i], ordered[j]) <==> i < j
    {
      RankedBefore(items, i, j);
    }
    SameMembers(items);
    assert Above(items, ordered[j]) == set i | i in ordered[..j] :: i.id;
    PrefixCount(items, j);
  }

  lemma RankedBefore(items: seq<Item>, i: nat, j: nat)
    requires DistinctIds(items) && i < |Sorted(items)| && j < |Sorted(items)|
    ensures Outranks(Sorted(items)[i], Sorted(items)[j]) <==> i < j
  {
    var ordered := Sorted(items);
    SortedFacts(items);
    OutranksOrder(ordered[i], ordered[j], ordered[i]);
  }

  lemma PrefixCount(items: seq<Item>, j: nat)
    requires DistinctIds(items) && j <= |Sorted(items)|
    ensures |set i | i in Sorted(items)[..j] :: i.id| == j
  {
    var prefix := Sorted(items)[..j];
    forall a, b | 0 <= a < b < |prefix|
      ensures prefix[a].id != prefix[b].id
    {
      SortedDistinct(items, a, b);
    }
    IdCount(prefix);
  }

  lemma SameMembers(items: seq<Item>)
    requires DistinctIds(items)
    ensures forall i :: i in items <==> i in Sorted(items)
  {
    SortedFacts(items);
    forall i
      ensures i in items <==> i in Sorted(items)
    {
      assert i in multiset(items) <==> i in items;
      assert i in multiset(Sorted(items)) <==> i in Sorted(items);
    }
  }

  /** An item is kept exactly when fewer than keep items outrank it. */
  lemma KeptExactly(items: seq<Item>, keep: nat, x: nat)
    requires DistinctIds(items) && x < |items|
    ensures items[x].id in KeptIds(items, keep) <==> |Above(items, items[x])| < keep
  {
    var j := Place(items, x);
    AboveIsBefore(items, j);
    FirstHolds(Sorted(items), keep, j);
    if items[x].id in KeptIds(items, keep) {
      var i := KeptPlace(items, keep, x);
      AboveIsBefore(items, i);
    }
  }

  /**
   What any enabled policy selects: the downloaded artifacts of items that keep_latest or more items
   outrank, or whose upload day lies before the age limit; and the plan lists nothing else.
   */
  lemma SelectionExactly(
    rows: seq<Row>, items: seq<Item>, policy: Policy, limit: int, today: int, unsafe: set<nat>, k: nat,
    x: nat)
    requires DistinctIds(items) && limit > 0 && policy.enabled && k < |rows| && x < |items|
             && rows[k].item == items[x].id
    ensures rows[k] in BuildPlan(rows, items, policy, limit, today, unsafe).value.candidates
            <==> rows[k].downloaded
                 && ((policy.keepLatest.Some? && |Above(items, items[x])| >= policy.keepLatest.value)
                     || (policy.maxAgeDays.Some? && items[x].uploadDay.Some?
                         && items[x].uploadDay.value + policy.maxAgeDays.value < today))
  {
    if policy.keepLatest.Some? {
      KeptExactly(items, policy.keepLatest.value, x);
    }
    assert items[x].id in Selected(items, policy, today) <==>
           || (policy.keepLatest.Some? && items[x].id !in KeptIds(items, policy.keepLatest.value))
           || (policy.maxAgeDays.Some? && TooOld(items[x], today, policy.maxAgeDays.value)) by {
      OneItemPerId(items, x);
    }
  }

  lemma OneItemPerId(items: seq<Item>, x: nat)
    requires DistinctIds(items) && x < |items|
    ensures forall y :: 0 <= y < |items| && items[y].id == items[x].id ==> y == x
  {
  }

  // ---- what is kept, on the items' own fields ----

  /** The text an item's date is compared as. */
  ghost predicate Dated(i: Item, date: string) {
    (i.uploadDate == Some(date) && date != "")
    || ((i.uploadDate == None || i.uploadDate == Some("")) && date == "99999999")
  }

  /** The texts agree before position p, and there the first has the greater character or alone goes on. */
  ghost predicate LaterAt(d: string, e: string, p: nat) {
    p < |d| && p <= |e| && d[..p] == e[..p] && (p < |e| ==> e[p] < d[p])
  }

  ghost predicate Later(d: string, e: string) { exists p: nat :: LaterAt(d, e, p) }

  /** Of two items with these dates the first is kept rather than the second. */
  ghost predicate Ahead(i: Item, d: string, j: Item, e: string) {
    || Later(d, e)
    || (d == e
        && var m := if i.playlistIndex.Some? then i.playlistIndex.value else 0;
           var n := if j.playlistIndex.Some? then j.playlistIndex.value else 0;
           m < n || (m == n && i.id > j.id))
  }

  lemma LaterHead(d: string, e: string, p: nat)
    requires LaterAt(d, e, p) && p > 0
    ensures e != "" && d[0] == e[0]
  {
    assert d[0] == d[..p][0] && e[0] == e[..p][0];
  }

  lemma {:induction false} LaterIsLexLess(d: string, e: string)
    ensures Later(d, e) <==> LexLess(e, d)
  {
    if d != "" && e != "" && d[0] == e[0] {
      LaterIsLexLess(d[1..], e[1..]);
      if p: nat :| LaterAt(d, e, p) {
        assert LaterAt(d[1..], e[1..], p - 1) by {
          assert d[1..][..p - 1] == d[..p][1..] && e[1..][..p - 1] == e[..p][1..];
        }
      }
      if p: nat :| LaterAt(d[1..], e[1..], p) {
        assert d[..p + 1] == [d[0]] + d[1..][..p] && e[..p + 1] == [e[0]] + e[1..][..p];
        assert LaterAt(d, e, p + 1);
      }
    } else {
      if p: nat :| LaterAt(d, e, p) {
        if p > 0 {
          LaterHead(d, e, p);
        }
      }
      assert LexLess(e, d) ==> LaterAt(d, e, 0);
    }
  }

  lemma AheadIsOutranks(i: Item, d: string, j: Item, e: string)
    requires Dated(i, d) && Dated(j, e)
    ensures Ahead(i, d, j, e) <==> Outranks(i, j)
  {
    LaterIsLexLess(d, e);
    LexTotal(d, e);
  }

  /**
   keep_latest alone, for items with these dates: an artifact is a candidate exactly when it is downloaded and
   at least as many items as are kept are ahead of its own.
   */
  lemma KeepLatestExactly(
    rows: seq<Row>, items: seq<Item>, dates: seq<string>, keep: nat, limit: int, today: int, unsafe: set<nat>, k: nat,
    x: nat)
    requires DistinctIds(items) && limit > 0 && k < |rows| && x < |items| && rows[k].item == items[x].id
    requires |dates| == |items| && forall y :: 0 <= y < |items| ==> Dated(items[y], dates[y])
    ensures var plan := BuildPlan(rows, items, Policy(true, Some(keep), None), limit, today, unsafe).value;
            rows[k] in plan.candidates
            <==> rows[k].downloaded
                 && keep <= |set y | 0 <= y < |items| && Ahead(items[y], dates[y], items[x], dates[x]) :: items[y].id|
  {
    SelectionExactly(rows, items, Policy(true, Some(keep), None), limit, today, unsafe, k, x);
    forall y | 0 <= y < |items|
      ensures Ahead(items[y], dates[y], items[x], dates[x]) <==> Outranks(items[y], items[x])
    {
      AheadIsOutranks(items[y], dates[y], items[x], dates[x]);
    }
    assert Above(items, items[x])
        == set y | 0 <= y < |items| && Ahead(items[y], dates[y], items[x], dates[x]) :: items[y].id;
  }

  /**
   So no item loses an artifact while one behind it keeps one: neither one with a later date while one with an
   earlier date does, nor, of one date, the smaller playlist index, nor, of one index, the greater id.
   */
  lemma LaterIsKept(
    rows: seq<Row>, items: seq<Item>, dates: seq<string>, keep: nat, limit: int, today: int, unsafe: set<nat>, k: nat,
    l: nat, x: nat, y: nat)
    requires DistinctIds(items) && limit > 0 && x < |items| && y < |items|
    requires k < |rows| && l < |rows| && rows[k].item == items[x].id && rows[l].item == items[y].id
    requires |dates| == |items| && forall z :: 0 <= z < |items| ==> Dated(items[z], dates[z])
    requires Ahead(items[x], dates[x], items[y], dates[y])
    ensures var plan := BuildPlan(rows, items, Policy(true, Some(keep), None), limit, today, unsafe).value;
            rows[k] in plan.candidates && rows[l].downloaded ==> rows[l] in plan.candidates
  {
    var policy := Policy(true, Some(keep), None);
    SelectionExactly(rows, items, policy, limit, today, unsafe, k, x);
    SelectionExactly(rows, items, policy, limit, today, unsafe, l, y);
    AheadIsOutranks(items[x], dates[x], items[y], dates[y]);
    forall i <- items
      ensures Outranks(i, items[x]) ==> Outranks(i, items[y])
    {
      OutranksOrder(i, items[x], items[y]);
    }
    MoreAbove(items, items[x], items[y]);
  }

  lemma MoreAbove(items: seq<Item>, i: Item, j: Item)
    requires forall h <- items :: Outranks(h, i) ==> Outranks(h, j)
    ensures |Above(items, i)| <= |Above(items, j)|
  {
    assert Above(items, j) == Above(items, i) + (Above(items, j) - Above(items, i));
  }
}
