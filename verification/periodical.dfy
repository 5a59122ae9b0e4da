/** Periodical holdings (the `else` branch of
    `AlmaSearchClient::process_catalogue_record_details`): holdings grouped
    as year -> issue -> holdings, and beside them a per-issue aggregate with
    the positive-only available total, the per-branch totals and the first
    holding's `reservable` flag. */
module Periodical {
  import opened Wrappers
  import opened Dom
  import opened Holdings

  /** The `$issue_list` array built for one issue. `reservable` is `None`
      for an issue without holdings, where PHP reads `$holdings[0]` as null. */
  datatype IssueAggregate = IssueAggregate(
    availableCount: int,
    branches: map<string, int>,
    reservable: Option<string>)

  /** The `holdings` and `issues` entries of a periodical record. */
  datatype Nested = Nested(
    holdings: map<string, map<string, seq<Holding>>>,
    issues: map<string, map<string, IssueAggregate>>)

  /** One visited issue element: its year label, its issue label and its
      extracted holdings. */
  datatype IssueEntry = IssueEntry(year: string, issue: string, holdings: seq<Holding>)

  // ---------------------------------------------------------------------
  // Reference definitions
  // ---------------------------------------------------------------------

  /** What a holding adds to its issue's totals: its availability when that
      is positive, nothing otherwise. */
  function Contribution(h: Holding): nat {
    if h.availableCount > 0 then h.availableCount else 0
  }

  /** Sum of the positive availabilities of `hs`. */
  function PositiveSum(hs: seq<Holding>): nat {
    if hs == [] then 0 else Contribution(hs[0]) + PositiveSum(hs[1..])
  }

  /** Sum of the positive availabilities of the holdings of `hs` at branch `b`. */
  function BranchSum(hs: seq<Holding>, b: string): nat {
    if hs == [] then 0
    else (if hs[0].branchId == b then Contribution(hs[0]) else 0) + BranchSum(hs[1..], b)
  }

  /** Some holding of `hs` at branch `b` has positive availability. */
  predicate HasAvailable(hs: seq<Holding>, b: string) {
    exists i :: 0 <= i < |hs| && hs[i].branchId == b && hs[i].availableCount > 0
  }

  /** The entry of `m` at `k`, 0 when there is none. */
  function Get(m: map<string, int>, k: string): int {
    if k in m then m[k] else 0
  }

  /** Sum of the values of `m` over the keys `ks`. */
  ghost function SumOver(m: map<string, int>, ks: set<string>): int
    requires ks <= m.Keys
    decreases ks
  {
    if ks == {} then 0 else var k :| k in ks; m[k] + SumOver(m, ks - {k})
  }

  /** Sum of all values of `m`. */
  ghost function SumValues(m: map<string, int>): int {
    SumOver(m, m.Keys)
  }

  // ---------------------------------------------------------------------
  // The aggregation loop of `process_catalogue_record_details`
  // ---------------------------------------------------------------------

  /** The body of `foreach ($holdings as $holding)`: a holding with positive
      availability adds it to the issue total and to its branch's entry,
      creating that entry if needed; any other holding changes nothing. */
  function AddHolding(agg: IssueAggregate, h: Holding): (r: IssueAggregate)
    ensures r.availableCount == agg.availableCount + Contribution(h)
    ensures forall b :: Get(r.branches, b) == Get(agg.branches, b) + (if b == h.branchId then Contribution(h) else 0)
    ensures r.branches.Keys == agg.branches.Keys + (if h.availableCount > 0 then {h.branchId} else {})
    ensures r.reservable == agg.reservable
  {
    if h.availableCount > 0 then
      var prior := if h.branchId in agg.branches then agg.branches[h.branchId] else 0;
      agg.(availableCount := agg.availableCount + h.availableCount,
           branches := agg.branches[h.branchId := prior + h.availableCount])
    else agg
  }

  /** The whole `foreach ($holdings as $holding)` loop from `agg`. */
  function AddAll(agg: IssueAggregate, hs: seq<Holding>): (r: IssueAggregate)
    ensures r.availableCount == agg.availableCount + PositiveSum(hs)
    ensures agg.branches.Keys <= r.branches.Keys
    ensures r.reservable == agg.reservable
    decreases |hs|
  {
    if hs == [] then agg else AddAll(AddHolding(agg, hs[0]), hs[1..])
  }

  /** The aggregate of one issue: start at zero with no branches and the
      first holding's `reservable`, then fold in every holding in order. */
  function Aggregate(hs: seq<Holding>): (r: IssueAggregate)
    ensures r.availableCount == PositiveSum(hs)
    ensures r.reservable == if |hs| > 0 then Some(hs[0].reservable) else None
  {
    AddAll(IssueAggregate(0, map[], if |hs| > 0 then Some(hs[0].reservable) else None), hs)
  }

  // ---------------------------------------------------------------------
  // Lemmas about the aggregate
  // ---------------------------------------------------------------------

  lemma {:induction false} SumOverPick(m: map<string, int>, ks: set<string>, k: string)
    requires ks <= m.Keys && k in ks
    ensures SumOver(m, ks) == m[k] + SumOver(m, ks - {k})
    decreases ks
  {
    var j :| j in ks && SumOver(m, ks) == m[j] + SumOver(m, ks - {j});
    if j != k {
      SumOverPick(m, ks - {j}, k);
      SumOverPick(m, ks - {k}, j);
      assert ks - {j} - {k} == ks - {k} - {j};
    }
  }

  lemma {:induction false} SumOverSame(m: map<string, int>, m': map<string, int>, ks: set<string>)
    requires ks <= m.Keys && ks <= m'.Keys
    requires forall k :: k in ks ==> m[k] == m'[k]
    ensures SumOver(m, ks) == SumOver(m', ks)
    decreases ks
  {
    if ks != {} {
      var k :| k in ks && SumOver(m, ks) == m[k] + SumOver(m, ks - {k});
      SumOverPick(m', ks, k);
      SumOverSame(m, m', ks - {k});
    }
  }

  /** Updating one entry of a map changes the sum of its values by the
      difference between the new and the old value. */
  lemma SumValuesUpdate(m: map<string, int>, k: string, v: int)
    ensures SumValues(m[k := v]) == SumValues(m) - Get(m, k) + v
  {
    var m' := m[k := v];
    if k in m {
      assert m'.Keys == m.Keys;
      SumOverPick(m', m.Keys, k);
      SumOverPick(m, m.Keys, k);
      SumOverSame(m, m', m.Keys - {k});
    } else {
      assert m'.Keys == m.Keys + {k};
      SumOverPick(m', m'.Keys, k);
      assert m'.Keys - {k} == m.Keys;
      SumOverSame(m, m', m.Keys);
    }
  }

  /** The fold from any starting point: the total grows by the positive
      sum, each branch entry by that branch's positive sum, a branch entry
      exists exactly when it existed or some holding there is available, and
      the sum of the branch entries grows by the same amount as the total. */
  lemma AddAllSpec(agg: IssueAggregate, hs: seq<Holding>)
    ensures AddAll(agg, hs).availableCount == agg.availableCount + PositiveSum(hs)
    ensures AddAll(agg, hs).reservable == agg.reservable
    ensures forall b :: Get(AddAll(agg, hs).branches, b) == Get(agg.branches, b) + BranchSum(hs, b)
    ensures forall b :: b in AddAll(agg, hs).branches <==> b in agg.branches || HasAvailable(hs, b)
    ensures SumValues(AddAll(agg, hs).branches) == SumValues(agg.branches) + PositiveSum(hs)
  {
    forall b
      ensures Get(AddAll(agg, hs).branches, b) == Get(agg.branches, b) + BranchSum(hs, b)
      ensures b in AddAll(agg, hs).branches <==> b in agg.branches || HasAvailable(hs, b)
    {
      AddAllBranch(agg, hs, b);
    }
    AddAllSum(agg, hs);
  }

  /** One branch through the fold: its entry grows by its positive sum, and
      exists exactly when it existed or some holding there is available. */
  lemma {:induction false} AddAllBranch(agg: IssueAggregate, hs: seq<Holding>, b: string)
    ensures Get(AddAll(agg, hs).branches, b) == Get(agg.branches, b) + BranchSum(hs, b)
    ensures b in AddAll(agg, hs).branches <==> b in agg.branches || HasAvailable(hs, b)
    decreases |hs|
  {
    if hs != [] {
      var h := hs[0];
      AddAllBranch(AddHolding(agg, h), hs[1..], b);
      if HasAvailable(hs, b) && b !in agg.branches && !(h.branchId == b && h.availableCount > 0) {
        var i :| 0 <= i < |hs| && hs[i].branchId == b && hs[i].availableCount > 0;
        assert i > 0 && hs[1..][i - 1] == hs[i];
      }
      if HasAvailable(hs[1..], b) {
        var i :| 0 <= i < |hs[1..]| && hs[1..][i].branchId == b && hs[1..][i].availableCount > 0;
        assert hs[i + 1] == hs[1..][i];
      }
    }
  }

  /** The branch entries' sum grows by the positive sum. */
  lemma {:induction false} AddAllSum(agg: IssueAggregate, hs: seq<Holding>)
    ensures SumValues(AddAll(agg, hs).branches) == SumValues(agg.branches) + PositiveSum(hs)
    decreases |hs|
  {
    if hs != [] {
      var h := hs[0];
      AddAllSum(AddHolding(agg, h), hs[1..]);
      if h.availableCount > 0 {
        SumValuesUpdate(agg.branches, h.branchId, Get(agg.branches, h.branchId) + h.availableCount);
      }
    }
  }

  /** The issue total is the sum of the positive availabilities, the
      branch entries sum to that total, and `reservable` is the first
      holding's (none for an issue without holdings). */
  lemma AggregateTotal(hs: seq<Holding>)
    ensures Aggregate(hs).availableCount == PositiveSum(hs)
    ensures SumValues(Aggregate(hs).branches) == Aggregate(hs).availableCount
    ensures Aggregate(hs).reservable == if |hs| > 0 then Some(hs[0].reservable) else None
  {
    var start := IssueAggregate(0, map[], if |hs| > 0 then Some(hs[0].reservable) else None);
    AddAllSpec(start, hs);
    assert SumValues(map[]) == 0;
  }

  /** A branch is listed iff some holding there has positive availability
      (so a holding with non-positive availability never creates an entry),
      and its entry is the positive sum at that branch. */
  lemma AggregateBranches(hs: seq<Holding>)
    ensures forall b :: b in Aggregate(hs).branches <==> HasAvailable(hs, b)
    ensures forall b :: b in Aggregate(hs).branches ==> Aggregate(hs).branches[b] == BranchSum(hs, b)
  {
    var start := IssueAggregate(0, map[], if |hs| > 0 then Some(hs[0].reservable) else None);
    AddAllSpec(start, hs);
    forall b | b in Aggregate(hs).branches
      ensures Aggregate(hs).branches[b] == BranchSum(hs, b)
    {
      assert Get(Aggregate(hs).branches, b) == Get(start.branches, b) + BranchSum(hs, b);
    }
  }

  /** Holdings that are not available do not change the aggregate. */
  lemma {:induction false} UnavailableAddsNothing(agg: IssueAggregate, hs: seq<Holding>, h: Holding)
    requires h.availableCount <= 0
    ensures AddAll(agg, hs + [h]) == AddAll(agg, hs)
    decreases |hs|
  {
    if hs == [] {
      assert [h][1..] == [];
    } else {
      assert (hs + [h])[1..] == hs[1..] + [h];
      UnavailableAddsNothing(AddHolding(agg, hs[0]), hs[1..], h);
    }
  }

  // ---------------------------------------------------------------------
  // The year/issue walk
  // ---------------------------------------------------------------------

  /** The issues of one year element, in document order. */
  function IssuesOfYear(year: Element): seq<IssueEntry> {
    var y := GetAttribute(year, "value");
    seq(|year.children|, k requires 0 <= k < |year.children| =>
      IssueEntry(y, GetAttribute(year.children[k], "value"), ExtractHoldings(year.children[k])))
  }

  /** The issues of a list of year elements, year by year. */
  function IssuesOfYears(years: seq<Element>): seq<IssueEntry> {
    if years == [] then [] else IssuesOfYear(years[0]) + IssuesOfYears(years[1..])
  }

  /** The issues of every `compositeHoldings` container, container by
      container, in the order the three nested `foreach` loops visit them. */
  function IssuesOfContainers(cs: seq<Element>): seq<IssueEntry> {
    if cs == [] then [] else IssuesOfYears(cs[0].children) + IssuesOfContainers(cs[1..])
  }

  /** `$m[$year][$issue] = $v` on a two-level PHP array. */
  function Put<V>(m: map<string, map<string, V>>, year: string, issue: string, v: V): map<string, map<string, V>> {
    m[year := (if year in m then m[year] else map[])[issue := v]]
  }

  /** One pass of the innermost loop body: store the issue's holdings and
      its aggregate under the same year and issue. */
  function Store(n: Nested, e: IssueEntry): (r: Nested)
    ensures Consistent(n) ==> Consistent(r)
    ensures HasKey(r, e.year, e.issue) && r.holdings[e.year][e.issue] == e.holdings
    ensures e.year in r.issues && e.issue in r.issues[e.year]
    ensures r.issues[e.year][e.issue] == Aggregate(e.holdings)
  {
    var r := Nested(Put(n.holdings, e.year, e.issue, e.holdings),
                    Put(n.issues, e.year, e.issue, Aggregate(e.holdings)));
    assert r.holdings.Keys == n.holdings.Keys + {e.year};
    assert r.issues.Keys == n.issues.Keys + {e.year};
    r
  }

  function StoreAll(n: Nested, es: seq<IssueEntry>): (r: Nested)
    ensures Consistent(n) ==> Consistent(r)
    decreases |es|
  {
    if es == [] then n else StoreAll(Store(n, es[0]), es[1..])
  }

  /** The periodical branch for record element `e`. */
  function PeriodicalHoldings(e: Element): (r: Nested)
    ensures Consistent(r)
  {
    StoreAll(Nested(map[], map[]), IssuesOfContainers(ElementsByTagName(e, "compositeHoldings")))
  }

  /** The two maps have the same years, each year the same issues, and every
      issue's aggregate is the aggregate of its holdings. */
  ghost predicate Consistent(n: Nested) {
    && n.holdings.Keys == n.issues.Keys
    && forall y :: y in n.holdings ==>
         && n.holdings[y].Keys == n.issues[y].Keys
         && forall i :: i in n.holdings[y] ==> n.issues[y][i] == Aggregate(n.holdings[y][i])
  }

  /** `(year, issue)` is a key of the holdings map. */
  predicate HasKey(n: Nested, year: string, issue: string) {
    year in n.holdings && issue in n.holdings[year]
  }

  /** Some visited issue carries these year and issue labels. */
  predicate Visited(es: seq<IssueEntry>, year: string, issue: string) {
    exists k :: 0 <= k < |es| && es[k].year == year && es[k].issue == issue
  }

  /** One store keeps the maps consistent and adds exactly its own key. */
  lemma StoreSpec(n: Nested, e: IssueEntry)
    requires Consistent(n)
    ensures Consistent(Store(n, e))
    ensures forall y, i :: HasKey(Store(n, e), y, i) <==> HasKey(n, y, i) || (y == e.year && i == e.issue)
  {
    var n' := Store(n, e);
    assert n'.holdings.Keys == n.holdings.Keys + {e.year};
    assert n'.issues.Keys == n.issues.Keys + {e.year};
  }

  /** Storing one issue leaves every other (year, issue) entry as it was. */
  lemma StoreFrame(n: Nested, e: IssueEntry, y: string, i: string)
    ensures HasKey(n, y, i) && !(y == e.year && i == e.issue) ==>
              HasKey(Store(n, e), y, i) && Store(n, e).holdings[y][i] == n.holdings[y][i]
  {
  }

  /** Entry `k` is the last one of `es` with its year and issue labels. */
  predicate LastOfLabels(es: seq<IssueEntry>, k: int) {
    && 0 <= k < |es|
    && forall j :: k < j < |es| ==> es[j].year != es[k].year || es[j].issue != es[k].issue
  }

  /** An entry the walk never revisits keeps the holdings it had. */
  lemma {:induction false} StoreAllKeeps(n: Nested, es: seq<IssueEntry>, y: string, i: string)
    requires HasKey(n, y, i) && !Visited(es, y, i)
    ensures HasKey(StoreAll(n, es), y, i) && StoreAll(n, es).holdings[y][i] == n.holdings[y][i]
    decreases |es|
  {
    if es != [] {
      StoreFrame(n, es[0], y, i);
      StoreAllKeeps(Store(n, es[0]), es[1..], y, i);
    }
  }

  /** Under each (year, issue) key sit the holdings of the last entry that
      carries those labels: a later duplicate overwrites an earlier one. */
  lemma {:induction false} StoreAllLastWins(n: Nested, es: seq<IssueEntry>, k: int)
    requires LastOfLabels(es, k)
    ensures HasKey(StoreAll(n, es), es[k].year, es[k].issue)
    ensures StoreAll(n, es).holdings[es[k].year][es[k].issue] == es[k].holdings
    decreases |es|
  {
    var e := es[k];
    if k == 0 {
      assert !Visited(es[1..], e.year, e.issue) by {
        forall j | 0 <= j < |es[1..]|
          ensures es[1..][j].year != e.year || es[1..][j].issue != e.issue
        {
          assert es[1..][j] == es[j + 1];
        }
      }
      StoreAllKeeps(Store(n, e), es[1..], e.year, e.issue);
    } else {
      assert es[1..][k - 1] == e;
      assert LastOfLabels(es[1..], k - 1) by {
        forall j | k - 1 < j < |es[1..]|
          ensures es[1..][j].year != e.year || es[1..][j].issue != e.issue
        {
          assert es[1..][j] == es[j + 1];
        }
      }
      StoreAllLastWins(Store(n, es[0]), es[1..], k - 1);
    }
  }

  lemma {:induction false} StoreAllSpec(n: Nested, es: seq<IssueEntry>)
    requires Consistent(n)
    ensures Consistent(StoreAll(n, es))
    ensures forall y, i :: HasKey(StoreAll(n, es), y, i) <==> HasKey(n, y, i) || Visited(es, y, i)
    decreases |es|
  {
    if es != [] {
      var e := es[0];
      var n' := Store(n, e);
      StoreSpec(n, e);
      StoreAllSpec(n', es[1..]);
      assert StoreAll(n, es) == StoreAll(n', es[1..]);
      forall y, i
        ensures HasKey(StoreAll(n, es), y, i) <==> HasKey(n, y, i) || Visited(es, y, i)
      {
        VisitedCons(es, y, i);
      }
    }
  }

  /** A non-empty walk visits a label pair iff its first entry carries it or
      the rest of the walk visits it. */
  lemma VisitedCons(es: seq<IssueEntry>, y: string, i: string)
    requires es != []
    ensures Visited(es, y, i) <==> (es[0].year == y && es[0].issue == i) || Visited(es[1..], y, i)
  {
    if Visited(es[1..], y, i) {
      var k :| 0 <= k < |es[1..]| && es[1..][k].year == y && es[1..][k].issue == i;
      assert es[k + 1] == es[1..][k];
    }
    if Visited(es, y, i) && !(es[0].year == y && es[0].issue == i) {
      var k :| 0 <= k < |es| && es[k].year == y && es[k].issue == i;
      assert k > 0 && es[1..][k - 1] == es[k];
    }
  }

  /** Some child of a year element in `years` carries the year label `y`
      (on the year element) and the issue label `i` (on the child). */
  ghost predicate InYears(years: seq<Element>, y: string, i: string) {
    exists yr, it :: yr in years && it in yr.children
                     && GetAttribute(yr, "value") == y && GetAttribute(it, "value") == i
  }

  /** Some container of `cs` has a year child labelled `y` with an issue
      child labelled `i`: the (year, issue) pairs the three nested loops
      over `compositeHoldings`, their children and their grandchildren meet. */
  ghost predicate InContainers(cs: seq<Element>, y: string, i: string) {
    exists c :: c in cs && InYears(c.children, y, i)
  }

  lemma VisitedAppend(a: seq<IssueEntry>, b: seq<IssueEntry>, y: string, i: string)
    ensures Visited(a + b, y, i) <==> Visited(a, y, i) || Visited(b, y, i)
  {
    if Visited(a + b, y, i) {
      var k :| 0 <= k < |a + b| && (a + b)[k].year == y && (a + b)[k].issue == i;
      if k >= |a| {
        assert b[k - |a|] == (a + b)[k];
      }
    }
    if Visited(b, y, i) {
      var k :| 0 <= k < |b| && b[k].year == y && b[k].issue == i;
      assert (a + b)[|a| + k] == b[k];
    }
    if Visited(a, y, i) {
      var k :| 0 <= k < |a| && a[k].year == y && a[k].issue == i;
      assert (a + b)[k] == a[k];
    }
  }

  /** One year element visits exactly its own label paired with each of its
      children's labels. */
  lemma YearVisits(year: Element, y: string, i: string)
    ensures Visited(IssuesOfYear(year), y, i) <==>
              GetAttribute(year, "value") == y && exists it :: it in year.children && GetAttribute(it, "value") == i
  {
    var es := IssuesOfYear(year);
    if Visited(es, y, i) {
      var k :| 0 <= k < |es| && es[k].year == y && es[k].issue == i;
      assert year.children[k] in year.children;
    }
    if GetAttribute(year, "value") == y && exists it :: it in year.children && GetAttribute(it, "value") == i {
      var it :| it in year.children && GetAttribute(it, "value") == i;
      var k :| 0 <= k < |year.children| && year.children[k] == it;
      assert es[k].year == y && es[k].issue == i;
    }
  }

  lemma {:induction false} YearsVisits(years: seq<Element>, y: string, i: string)
    ensures Visited(IssuesOfYears(years), y, i) <==> InYears(years, y, i)
    decreases |years|
  {
    if years != [] {
      YearsVisits(years[1..], y, i);
      YearVisits(years[0], y, i);
      VisitedAppend(IssuesOfYear(years[0]), IssuesOfYears(years[1..]), y, i);
      if InYears(years, y, i) {
        var yr, it :| yr in years && it in yr.children
                      && GetAttribute(yr, "value") == y && GetAttribute(it, "value") == i;
        if yr != years[0] {
          assert yr in years[1..];
        }
      }
      if InYears(years[1..], y, i) {
        var yr, it :| yr in years[1..] && it in yr.children
                      && GetAttribute(yr, "value") == y && GetAttribute(it, "value") == i;
        assert yr in years;
      }
    }
  }

  /** The walk over the containers visits exactly the (year, issue) label
      pairs found in the tree: a container, one of its year children and one
      of that year's issue children. */
  lemma {:induction false} ContainersVisits(cs: seq<Element>, y: string, i: string)
    ensures Visited(IssuesOfContainers(cs), y, i) <==> InContainers(cs, y, i)
    decreases |cs|
  {
    if cs != [] {
      ContainersVisits(cs[1..], y, i);
      YearsVisits(cs[0].children, y, i);
      VisitedAppend(IssuesOfYears(cs[0].children), IssuesOfContainers(cs[1..]), y, i);
      if InContainers(cs, y, i) {
        var c :| c in cs && InYears(c.children, y, i);
        if c != cs[0] {
          assert c in cs[1..];
        }
      }
      if InContainers(cs[1..], y, i) {
        var c :| c in cs[1..] && InYears(c.children, y, i);
        assert c in cs;
      }
    }
  }

  /** The periodical maps are consistent: every (year, issue) in `holdings`
      is in `issues` and vice versa, each with the aggregate of exactly those
      holdings, and the keys are exactly the (year, issue) label pairs of the
      tree below the record's `compositeHoldings` elements. */
  lemma PeriodicalSpec(e: Element)
    ensures Consistent(PeriodicalHoldings(e))
    ensures forall y, i :: HasKey(PeriodicalHoldings(e), y, i) <==>
              InContainers(Named(Descendants(e), "compositeHoldings"), y, i)
    ensures var es := IssuesOfContainers(ElementsByTagName(e, "compositeHoldings"));
            forall k :: LastOfLabels(es, k) ==>
              && HasKey(PeriodicalHoldings(e), es[k].year, es[k].issue)
              && PeriodicalHoldings(e).holdings[es[k].year][es[k].issue] == es[k].holdings
  {
    var cs := ElementsByTagName(e, "compositeHoldings");
    forall k | LastOfLabels(IssuesOfContainers(cs), k)
      ensures && HasKey(PeriodicalHoldings(e), IssuesOfContainers(cs)[k].year, IssuesOfContainers(cs)[k].issue)
              && PeriodicalHoldings(e).holdings[IssuesOfContainers(cs)[k].year][IssuesOfContainers(cs)[k].issue]
                 == IssuesOfContainers(cs)[k].holdings
    {
      StoreAllLastWins(Nested(map[], map[]), IssuesOfContainers(cs), k);
    }
    ElementsByTagNameIsFilteredDescendants(e, "compositeHoldings");
    StoreAllSpec(Nested(map[], map[]), IssuesOfContainers(cs));
    forall y, i
      ensures HasKey(PeriodicalHoldings(e), y, i) <==> InContainers(cs, y, i)
    {
      ContainersVisits(cs, y, i);
    }
  }

  /** A later issue element with the same year and issue labels replaces
      the earlier one's holdings. */
  lemma {:induction false} LaterIssueWins(n: Nested, es: seq<IssueEntry>, e: IssueEntry)
    ensures HasKey(StoreAll(n, es + [e]), e.year, e.issue)
    ensures StoreAll(n, es + [e]).holdings[e.year][e.issue] == e.holdings
    decreases |es|
  {
    if es == [] {
      assert [e][1..] == [];
    } else {
      assert (es + [e])[1..] == es[1..] + [e];
      LaterIssueWins(Store(n, es[0]), es[1..], e);
    }
  }

  /** Scenario: one issue with holdings of availability 3 at branch "A" and
      0 at branch "B" aggregates to 3, with only branch "A" listed. */
  lemma TwoBranchExample(a: Holding, b: Holding)
    requires a.availableCount == 3 && a.branchId == "A"
    requires b.availableCount == 0 && b.branchId == "B"
    ensures Aggregate([a, b]).availableCount == 3
    ensures Aggregate([a, b]).branches == map["A" := 3]
    ensures Aggregate([a, b]).reservable == Some(a.reservable)
  {
    var start := IssueAggregate(0, map[], Some(a.reservable));
    var afterA := IssueAggregate(3, map["A" := 3], Some(a.reservable));
    assert AddHolding(start, a) == afterA;
    assert AddHolding(afterA, b) == afterA;
    assert [a, b][1..] == [b];
    assert [b][1..] == [];
    assert AddAll(afterA, [b]) == afterA;
    assert Aggregate([a, b]) == AddAll(afterA, [b]);
  }
}
