// The summary page (src/pages/Summary.tsx): forecast cost totals per
// resource, per project and overall, and the over-budget flag. The totals
// add up every allocation a forecast holds, whatever its year.

module Summary {
  import opened Wrappers
  import Seqs
  import opened OrderedMaps
  import opened Model
  import Resources
  import Projects
  import opened Forecasts

  /** The inner `reduce` over `Object.values(forecast.allocations)`: adds the
      cost of each allocation to `sum`, left to right. */
  function AllocationFold(sum: real, rate: real, values: seq<real>): real
    decreases |values|
  {
    if |values| == 0 then sum else AllocationFold(sum + CostOf(rate, values[0]), rate, values[1..])
  }

  /** Reference definition: the costs of the allocations, added up. */
  ghost function CostSum(rate: real, values: seq<real>): real
    decreases |values|
  {
    if |values| == 0 then 0.0 else CostOf(rate, values[0]) + CostSum(rate, values[1..])
  }

  /** The fold adds exactly the costs of all allocations to its start value. */
  lemma {:induction false} AllocationFoldIsSum(sum: real, rate: real, values: seq<real>)
    ensures AllocationFold(sum, rate, values) == sum + CostSum(rate, values)
    decreases |values|
  {
    if |values| > 0 {
      AllocationFoldIsSum(sum + CostOf(rate, values[0]), rate, values[1..]);
    }
  }

  /** With a non-negative rate and non-negative allocations the sum is
      non-negative. */
  lemma {:induction false} CostSumNonNegative(rate: real, values: seq<real>)
    requires rate >= 0.0 && forall i :: 0 <= i < |values| ==> values[i] >= 0.0
    ensures CostSum(rate, values) >= 0.0
    decreases |values|
  {
    if |values| > 0 {
      assert rate * values[0] >= 0.0;
      CostSumNonNegative(rate, values[1..]);
    }
  }

  /** `resources.find(r => r.id === id)?.rate`. */
  function RateOf(rs: seq<Resource>, id: string): (rate: Option<real>)
    ensures rate.None? <==> forall r :: r in rs ==> r.id != id
    ensures rate.Some? ==> exists r :: r in rs && r.id == id && r.rate == rate.value
  {
    var resource := Resources.Find(rs, id);
    if resource.None? then None else Some(resource.value.rate)
  }

  /** What one forecast adds to a total at the given rate lookup: nothing
      when the resource is missing, otherwise the cost of all its
      allocations. */
  ghost function Contribution(rate: Option<real>, f: Forecast): real {
    if rate.None? then 0.0 else CostSum(rate.value, Values(f.allocations))
  }

  /** A forecast's own cost: its allocations at the rate of its own resource. */
  ghost function OwnCost(rs: seq<Resource>, f: Forecast): real {
    Contribution(RateOf(rs, f.resourceId), f)
  }

  /** The outer `reduce` over the filtered forecasts: each forecast whose rate
      lookup succeeds adds its allocation total; the others add nothing. */
  function ForecastFold(total: real, fs: seq<Forecast>, rateOf: Forecast -> Option<real>): real
    decreases |fs|
  {
    if |fs| == 0 then total
    else
      var rate := rateOf(fs[0]);
      var next := if rate.None? then total else total + AllocationFold(0.0, rate.value, Values(fs[0].allocations));
      ForecastFold(next, fs[1..], rateOf)
  }

  /** `calculateTotalByResource`: the forecasts of `resourceId`, all at the
      rate looked up for `resourceId`. */
  function TotalByResource(fs: seq<Forecast>, rs: seq<Resource>, resourceId: string): real {
    ForecastFold(0.0, Seqs.Filter(fs, (f: Forecast) => f.resourceId == resourceId), (f: Forecast) => RateOf(rs, resourceId))
  }

  /** `calculateTotalByProject`: the forecasts of the project, each at the
      rate of its own resource. */
  function TotalByProject(fs: seq<Forecast>, rs: seq<Resource>, projectPvNumber: string): real {
    ForecastFold(0.0, Seqs.Filter(fs, (f: Forecast) => f.projectPvNumber == projectPvNumber), (f: Forecast) => RateOf(rs, f.resourceId))
  }

  /** `overallTotal`: the resource totals of `items`, added to `acc` in list
      order. */
  function OverallFold(acc: real, fs: seq<Forecast>, rs: seq<Resource>, items: seq<Resource>): real
    decreases |items|
  {
    if |items| == 0 then acc else OverallFold(acc + TotalByResource(fs, rs, items[0].id), fs, rs, items[1..])
  }

  function OverallTotal(fs: seq<Forecast>, rs: seq<Resource>): real {
    OverallFold(0.0, fs, rs, rs)
  }

  /** The inline `isOverBudget`: the budget is truthy (set and not 0) and the
      total exceeds it. */
  predicate IsOverBudget(p: Project, total: real) {
    p.budget.Some? && p.budget.value != 0.0 && total > p.budget.value
  }

  /** Reference definition: the summed `cost` of the forecasts that `keep`
      accepts. */
  ghost function SumWhere(fs: seq<Forecast>, keep: Forecast -> bool, cost: Forecast -> real): real
    decreases |fs|
  {
    if |fs| == 0 then 0.0 else (if keep(fs[0]) then cost(fs[0]) else 0.0) + SumWhere(fs[1..], keep, cost)
  }

  /** Two sums agree when they agree on every forecast. */
  lemma {:induction false} SumWhereCongruent(fs: seq<Forecast>, k1: Forecast -> bool, c1: Forecast -> real,
                                             k2: Forecast -> bool, c2: Forecast -> real)
    requires forall i :: 0 <= i < |fs| ==> (if k1(fs[i]) then c1(fs[i]) else 0.0) == (if k2(fs[i]) then c2(fs[i]) else 0.0)
    ensures SumWhere(fs, k1, c1) == SumWhere(fs, k2, c2)
    decreases |fs|
  {
    if |fs| > 0 {
      assert (if k1(fs[0]) then c1(fs[0]) else 0.0) == (if k2(fs[0]) then c2(fs[0]) else 0.0);
      SumWhereCongruent(fs[1..], k1, c1, k2, c2);
    }
  }

  /** A sum over two disjoint selections is the sum of the two. */
  lemma {:induction false} SumWhereSplit(fs: seq<Forecast>, k: Forecast -> bool, k1: Forecast -> bool, k2: Forecast -> bool,
                                         cost: Forecast -> real)
    requires forall i :: 0 <= i < |fs| ==> (k(fs[i]) <==> k1(fs[i]) || k2(fs[i])) && !(k1(fs[i]) && k2(fs[i]))
    ensures SumWhere(fs, k, cost) == SumWhere(fs, k1, cost) + SumWhere(fs, k2, cost)
    decreases |fs|
  {
    if |fs| > 0 {
      assert (k(fs[0]) <==> k1(fs[0]) || k2(fs[0])) && !(k1(fs[0]) && k2(fs[0]));
      SumWhereSplit(fs[1..], k, k1, k2, cost);
    }
  }

  /** Appending one forecast adds its cost when it is selected. */
  lemma {:induction false} SumWhereAppend(fs: seq<Forecast>, g: Forecast, keep: Forecast -> bool, cost: Forecast -> real)
    ensures SumWhere(fs + [g], keep, cost) == SumWhere(fs, keep, cost) + (if keep(g) then cost(g) else 0.0)
    decreases |fs|
  {
    if |fs| > 0 {
      assert (fs + [g])[1..] == fs[1..] + [g];
      SumWhereAppend(fs[1..], g, keep, cost);
    }
  }

  /** The page's filter-then-fold equals the reference sum over the
      selected forecasts of what each contributes at its rate lookup. */
  lemma {:induction false} FilteredFoldIsSum(total: real, fs: seq<Forecast>, keep: Forecast -> bool,
                                             rateOf: Forecast -> Option<real>)
    ensures ForecastFold(total, Seqs.Filter(fs, keep), rateOf) ==
      total + SumWhere(fs, keep, (f: Forecast) => Contribution(rateOf(f), f))
    decreases |fs|
  {
    if |fs| > 0 {
      var rest := Seqs.Filter(fs[1..], keep);
      if keep(fs[0]) {
        var rate := rateOf(fs[0]);
        var filtered := [fs[0]] + rest;
        assert filtered[1..] == rest;
        if rate.Some? {
          AllocationFoldIsSum(0.0, rate.value, Values(fs[0].allocations));
          FilteredFoldIsSum(total + AllocationFold(0.0, rate.value, Values(fs[0].allocations)), fs[1..], keep, rateOf);
        } else {
          FilteredFoldIsSum(total, fs[1..], keep, rateOf);
        }
      } else {
        FilteredFoldIsSum(total, fs[1..], keep, rateOf);
      }
    }
  }

  /** `calculateTotalByResource` is the summed own cost of the resource's
      forecasts, over every allocation they hold, with no month or year
      filter. */
  lemma TotalByResourceIsSum(fs: seq<Forecast>, rs: seq<Resource>, resourceId: string)
    ensures TotalByResource(fs, rs, resourceId) ==
      SumWhere(fs, (f: Forecast) => f.resourceId == resourceId, (f: Forecast) => OwnCost(rs, f))
  {
    var keep := (f: Forecast) => f.resourceId == resourceId;
    var rateOf := (f: Forecast) => RateOf(rs, resourceId);
    FilteredFoldIsSum(0.0, fs, keep, rateOf);
    SumWhereCongruent(fs, keep, (f: Forecast) => Contribution(rateOf(f), f), keep, (f: Forecast) => OwnCost(rs, f));
  }

  /** `calculateTotalByProject` is the summed own cost of the project's
      forecasts; a forecast whose resource is missing adds nothing. */
  lemma TotalByProjectIsSum(fs: seq<Forecast>, rs: seq<Resource>, projectPvNumber: string)
    ensures TotalByProject(fs, rs, projectPvNumber) ==
      SumWhere(fs, (f: Forecast) => f.projectPvNumber == projectPvNumber, (f: Forecast) => OwnCost(rs, f))
  {
    var keep := (f: Forecast) => f.projectPvNumber == projectPvNumber;
    var rateOf := (f: Forecast) => RateOf(rs, f.resourceId);
    FilteredFoldIsSum(0.0, fs, keep, rateOf);
    SumWhereCongruent(fs, keep, (f: Forecast) => Contribution(rateOf(f), f), keep, (f: Forecast) => OwnCost(rs, f));
  }

  /** A forecast whose resource is missing costs nothing. */
  lemma OwnCostOfMissingResource(rs: seq<Resource>, f: Forecast)
    requires forall r :: r in rs ==> r.id != f.resourceId
    ensures OwnCost(rs, f) == 0.0
  {
  }

  /** The fold leaves its start value alone when no rate lookup succeeds. */
  lemma {:induction false} ForecastFoldWithoutRates(total: real, fs: seq<Forecast>, rateOf: Forecast -> Option<real>)
    requires forall i :: 0 <= i < |fs| ==> rateOf(fs[i]).None?
    ensures ForecastFold(total, fs, rateOf) == total
    decreases |fs|
  {
    if |fs| > 0 {
      ForecastFoldWithoutRates(total, fs[1..], rateOf);
    }
  }

  /** No resource with that id: its total is 0. */
  lemma TotalOfMissingResource(fs: seq<Forecast>, rs: seq<Resource>, resourceId: string)
    requires forall r :: r in rs ==> r.id != resourceId
    ensures TotalByResource(fs, rs, resourceId) == 0.0
  {
    ForecastFoldWithoutRates(0.0, Seqs.Filter(fs, (f: Forecast) => f.resourceId == resourceId), (f: Forecast) => RateOf(rs, resourceId));
  }

  ghost predicate RatesNonNegative(rs: seq<Resource>) {
    forall r :: r in rs ==> r.rate >= 0.0
  }

  ghost predicate AllocationsNonNegative(fs: seq<Forecast>) {
    forall f, i :: f in fs && 0 <= i < |f.allocations| ==> f.allocations[i].value >= 0.0
  }

  /** With non-negative rates and allocations every forecast's own cost is
      non-negative. */
  lemma OwnCostNonNegative(rs: seq<Resource>, f: Forecast)
    requires RatesNonNegative(rs)
    requires forall i :: 0 <= i < |f.allocations| ==> f.allocations[i].value >= 0.0
    ensures OwnCost(rs, f) >= 0.0
  {
    var rate := RateOf(rs, f.resourceId);
    if rate.Some? {
      CostSumNonNegative(rate.value, Values(f.allocations));
    }
  }

  lemma {:induction false} SumWhereNonNegative(fs: seq<Forecast>, keep: Forecast -> bool, rs: seq<Resource>)
    requires RatesNonNegative(rs) && AllocationsNonNegative(fs)
    ensures SumWhere(fs, keep, (f: Forecast) => OwnCost(rs, f)) >= 0.0
    decreases |fs|
  {
    if |fs| > 0 {
      assert fs[0] in fs;
      OwnCostNonNegative(rs, fs[0]);
      assert AllocationsNonNegative(fs[1..]) by {
        forall f, i | f in fs[1..] && 0 <= i < |f.allocations| ensures f.allocations[i].value >= 0.0 {
          assert f in fs;
        }
      }
      SumWhereNonNegative(fs[1..], keep, rs);
    }
  }

  /** With non-negative rates and allocations both totals are non-negative. */
  lemma TotalsNonNegative(fs: seq<Forecast>, rs: seq<Resource>, resourceId: string, projectPvNumber: string)
    requires RatesNonNegative(rs) && AllocationsNonNegative(fs)
    ensures TotalByResource(fs, rs, resourceId) >= 0.0
    ensures TotalByProject(fs, rs, projectPvNumber) >= 0.0
  {
    TotalByResourceIsSum(fs, rs, resourceId);
    TotalByProjectIsSum(fs, rs, projectPvNumber);
    SumWhereNonNegative(fs, (f: Forecast) => f.resourceId == resourceId, rs);
    SumWhereNonNegative(fs, (f: Forecast) => f.projectPvNumber == projectPvNumber, rs);
  }

  /** A forecast without allocations, such as a freshly added one, changes no
      total. */
  lemma EmptyForecastAddsNothing(fs: seq<Forecast>, rs: seq<Resource>, g: Forecast, resourceId: string, projectPvNumber: string)
    requires g.allocations == []
    ensures TotalByResource(fs + [g], rs, resourceId) == TotalByResource(fs, rs, resourceId)
    ensures TotalByProject(fs + [g], rs, projectPvNumber) == TotalByProject(fs, rs, projectPvNumber)
  {
    assert OwnCost(rs, g) == 0.0;
    TotalByResourceIsSum(fs, rs, resourceId);
    TotalByResourceIsSum(fs + [g], rs, resourceId);
    SumWhereAppend(fs, g, (f: Forecast) => f.resourceId == resourceId, (f: Forecast) => OwnCost(rs, f));
    TotalByProjectIsSum(fs, rs, projectPvNumber);
    TotalByProjectIsSum(fs + [g], rs, projectPvNumber);
    SumWhereAppend(fs, g, (f: Forecast) => f.projectPvNumber == projectPvNumber, (f: Forecast) => OwnCost(rs, f));
  }

  /** The ids of a list of resources, in order. */
  function IdList(items: seq<Resource>): (ids: seq<string>)
    ensures |ids| == |items| && forall i :: 0 <= i < |items| ==> ids[i] == items[i].id
  {
    seq(|items|, i requires 0 <= i < |items| => items[i].id)
  }

  /** The overall fold over a list of resources with distinct ids adds the
      own cost of every forecast whose resource is in the list. */
  lemma {:induction false} OverallFoldIsSum(acc: real, fs: seq<Forecast>, rs: seq<Resource>, items: seq<Resource>)
    requires Resources.IdsUnique(items)
    ensures OverallFold(acc, fs, rs, items) ==
      acc + SumWhere(fs, (f: Forecast) => f.resourceId in IdList(items), (f: Forecast) => OwnCost(rs, f))
    decreases |items|
  {
    var cost := (f: Forecast) => OwnCost(rs, f);
    if |items| == 0 {
      SumWhereCongruent(fs, (f: Forecast) => f.resourceId in IdList(items), cost, (f: Forecast) => false, cost);
      SumWhereZero(fs, cost);
    } else {
      var total := TotalByResource(fs, rs, items[0].id);
      OverallFoldStep(acc, fs, rs, items);
      OverallFoldIsSum(acc + total, fs, rs, items[1..]);
      TotalByResourceIsSum(fs, rs, items[0].id);
      IdListSplit(fs, items, cost);
    }
  }

  lemma OverallFoldStep(acc: real, fs: seq<Forecast>, rs: seq<Resource>, items: seq<Resource>)
    requires |items| > 0
    ensures OverallFold(acc, fs, rs, items) == OverallFold(acc + TotalByResource(fs, rs, items[0].id), fs, rs, items[1..])
  {
  }

  /** Over distinct ids, selecting the forecasts of the listed resources
      splits into those of the first resource and those of the others. */
  lemma IdListSplit(fs: seq<Forecast>, items: seq<Resource>, cost: Forecast -> real)
    requires Resources.IdsUnique(items) && |items| > 0
    ensures SumWhere(fs, (f: Forecast) => f.resourceId in IdList(items), cost) ==
      SumWhere(fs, (f: Forecast) => f.resourceId == items[0].id, cost) +
      SumWhere(fs, (f: Forecast) => f.resourceId in IdList(items[1..]), cost)
  {
    var head := items[0].id;
    var rest := items[1..];
    forall j | 0 <= j < |rest| ensures IdList(rest)[j] != head {
      assert items[j + 1].id != items[0].id;
    }
    var inItems := (f: Forecast) => f.resourceId in IdList(items);
    var isHead := (f: Forecast) => f.resourceId == head;
    var inRest := (f: Forecast) => f.resourceId in IdList(rest);
    assert IdList(items) == [head] + IdList(rest);
    forall i | 0 <= i < |fs|
      ensures (inItems(fs[i]) <==> isHead(fs[i]) || inRest(fs[i])) && !(isHead(fs[i]) && inRest(fs[i]))
    {
    }
    SumWhereSplit(fs, inItems, isHead, inRest, cost);
  }

  /** Selecting nothing sums to 0. */
  lemma {:induction false} SumWhereZero(fs: seq<Forecast>, cost: Forecast -> real)
    ensures SumWhere(fs, (f: Forecast) => false, cost) == 0.0
    decreases |fs|
  {
    if |fs| > 0 {
      SumWhereZero(fs[1..], cost);
    }
  }

  /** Reference definition of the grand total: the own cost of every forecast. */
  ghost function GrandTotal(fs: seq<Forecast>, rs: seq<Resource>): real {
    SumWhere(fs, (f: Forecast) => true, (f: Forecast) => OwnCost(rs, f))
  }

  /** With unique resource ids, `overallTotal` counts every forecast exactly
      once at its own resource's rate; forecasts of missing resources add
      nothing either way. */
  lemma OverallTotalIsGrandTotal(fs: seq<Forecast>, rs: seq<Resource>)
    requires Resources.IdsUnique(rs)
    ensures OverallTotal(fs, rs) == GrandTotal(fs, rs)
  {
    var cost := (f: Forecast) => OwnCost(rs, f);
    OverallFoldIsSum(0.0, fs, rs, rs);
    forall i | 0 <= i < |fs| && fs[i].resourceId !in IdList(rs) ensures OwnCost(rs, fs[i]) == 0.0 {
      forall r | r in rs ensures r.id != fs[i].resourceId {
        var j :| 0 <= j < |rs| && rs[j] == r;
        assert IdList(rs)[j] == r.id;
      }
      OwnCostOfMissingResource(rs, fs[i]);
    }
    SumWhereCongruent(fs, (f: Forecast) => f.resourceId in IdList(rs), cost, (f: Forecast) => true, cost);
  }

  /** The project totals of a list of projects, added up. */
  ghost function ProjectTotals(fs: seq<Forecast>, rs: seq<Resource>, ps: seq<Project>): real
    decreases |ps|
  {
    if |ps| == 0 then 0.0 else TotalByProject(fs, rs, ps[0].pvNumber) + ProjectTotals(fs, rs, ps[1..])
  }

  function PvList(ps: seq<Project>): (pvs: seq<string>)
    ensures |pvs| == |ps| && forall i :: 0 <= i < |ps| ==> pvs[i] == ps[i].pvNumber
  {
    seq(|ps|, i requires 0 <= i < |ps| => ps[i].pvNumber)
  }

  /** Over projects with distinct PV numbers, the project totals add the own
      cost of every forecast whose project is in the list. */
  lemma {:induction false} ProjectTotalsIsSum(fs: seq<Forecast>, rs: seq<Resource>, ps: seq<Project>)
    requires Projects.PvNumbersUnique(ps)
    ensures ProjectTotals(fs, rs, ps) ==
      SumWhere(fs, (f: Forecast) => f.projectPvNumber in PvList(ps), (f: Forecast) => OwnCost(rs, f))
    decreases |ps|
  {
    var cost := (f: Forecast) => OwnCost(rs, f);
    if |ps| == 0 {
      SumWhereCongruent(fs, (f: Forecast) => f.projectPvNumber in PvList(ps), cost, (f: Forecast) => false, cost);
      SumWhereZero(fs, cost);
    } else {
      var head := ps[0].pvNumber;
      var rest := ps[1..];
      assert Projects.PvNumbersUnique(rest);
      ProjectTotalsIsSum(fs, rs, rest);
      TotalByProjectIsSum(fs, rs, head);
      forall j | 0 <= j < |rest| ensures PvList(rest)[j] != head {
        assert ps[j + 1].pvNumber != ps[0].pvNumber;
      }
      var inPs := (f: Forecast) => f.projectPvNumber in PvList(ps);
      var isHead := (f: Forecast) => f.projectPvNumber == head;
      var inRest := (f: Forecast) => f.projectPvNumber in PvList(rest);
      assert PvList(ps) == [head] + PvList(rest);
      forall i | 0 <= i < |fs|
        ensures (inPs(fs[i]) <==> isHead(fs[i]) || inRest(fs[i])) && !(isHead(fs[i]) && inRest(fs[i]))
      {
      }
      SumWhereSplit(fs, inPs, isHead, inRest, cost);
    }
  }

  /** The two views of the summary agree: when resource ids and PV numbers are
      unique and every forecast's project is registered, the project totals
      add up to the overall total. */
  lemma ProjectTotalsAddUpToOverall(fs: seq<Forecast>, rs: seq<Resource>, ps: seq<Project>)
    requires Resources.IdsUnique(rs) && Projects.PvNumbersUnique(ps)
    requires forall f :: f in fs ==> exists p :: p in ps && p.pvNumber == f.projectPvNumber
    ensures ProjectTotals(fs, rs, ps) == OverallTotal(fs, rs)
  {
    var cost := (f: Forecast) => OwnCost(rs, f);
    OverallTotalIsGrandTotal(fs, rs);
    ProjectTotalsIsSum(fs, rs, ps);
    forall i | 0 <= i < |fs| ensures fs[i].projectPvNumber in PvList(ps) {
      assert fs[i] in fs;
      var p :| p in ps && p.pvNumber == fs[i].projectPvNumber;
      var j :| 0 <= j < |ps| && ps[j] == p;
      assert PvList(ps)[j] == p.pvNumber;
    }
    SumWhereCongruent(fs, (f: Forecast) => f.projectPvNumber in PvList(ps), cost, (f: Forecast) => true, cost);
  }

  /** An unset or zero budget is never exceeded; a positive budget is exceeded
      exactly by a larger total. */
  lemma OverBudgetCases(p: Project, total: real)
    ensures p.budget.None? || p.budget == Some(0.0) ==> !IsOverBudget(p, total)
    ensures p.budget.Some? && p.budget.value > 0.0 ==> (IsOverBudget(p, total) <==> total > p.budget.value)
  {
  }

  /** Adding a forecast with non-negative allocations never clears the
      over-budget flag of a project: its total can only grow. */
  lemma OverBudgetStaysOver(fs: seq<Forecast>, rs: seq<Resource>, p: Project, g: Forecast)
    requires RatesNonNegative(rs)
    requires forall i :: 0 <= i < |g.allocations| ==> g.allocations[i].value >= 0.0
    requires IsOverBudget(p, TotalByProject(fs, rs, p.pvNumber))
    ensures IsOverBudget(p, TotalByProject(fs + [g], rs, p.pvNumber))
  {
    var keep := (f: Forecast) => f.projectPvNumber == p.pvNumber;
    var cost := (f: Forecast) => OwnCost(rs, f);
    TotalByProjectIsSum(fs, rs, p.pvNumber);
    TotalByProjectIsSum(fs + [g], rs, p.pvNumber);
    SumWhereAppend(fs, g, keep, cost);
    OwnCostNonNegative(rs, g);
  }

  /** A resource at rate 100 allocated 50 percent in one month: both totals
      come to 50, which exceeds a budget of 40. */
  lemma HalfAllocationExample()
    ensures var rs := [Resource("R1", "Ada", 100.0, Onshore, "Acme", None, None)];
            var fs := [Forecast("F1", "R1", "PV1", [Entry(Calendar.MonthKey(2025, 3), 50.0)])];
            && TotalByResource(fs, rs, "R1") == 50.0
            && TotalByProject(fs, rs, "PV1") == 50.0
            && OverallTotal(fs, rs) == 50.0
            && IsOverBudget(Project("PV1", "Alpha", "A-1", Some(40.0)), TotalByProject(fs, rs, "PV1"))
  {
    var rs := [Resource("R1", "Ada", 100.0, Onshore, "Acme", None, None)];
    var fs := [Forecast("F1", "R1", "PV1", [Entry(Calendar.MonthKey(2025, 3), 50.0)])];
    assert Resources.IdsUnique(rs);
    Resources.FindUnique(rs, 0);
    assert Seqs.Filter(fs, (f: Forecast) => f.resourceId == "R1") == fs by {
      Seqs.FilterKeepsAll(fs, (f: Forecast) => f.resourceId == "R1");
    }
    assert Seqs.Filter(fs, (f: Forecast) => f.projectPvNumber == "PV1") == fs by {
      Seqs.FilterKeepsAll(fs, (f: Forecast) => f.projectPvNumber == "PV1");
    }
    assert Values(fs[0].allocations) == [50.0];
    assert RateOf(rs, "R1") == Some(100.0);
    assert AllocationFold(0.0, 100.0, [50.0]) == AllocationFold(50.0, 100.0, []) == 50.0;
    assert ForecastFold(0.0, fs, (f: Forecast) => RateOf(rs, "R1")) == 50.0 by {
      assert fs[1..] == [];
    }
    assert ForecastFold(0.0, fs, (f: Forecast) => RateOf(rs, f.resourceId)) == 50.0 by {
      assert fs[1..] == [];
    }
    OverallFoldStep(0.0, fs, rs, rs);
    assert rs[1..] == [];
  }

  /** No year filter and no activity filter: a resource that has ended still
      has all its allocations, in every year, counted in both totals. */
  lemma EndedResourceStillCounts()
    ensures var rs := [Resource("R1", "Ada", 100.0, Onshore, "Acme", Some(2020), Some(2024))];
            var fs := [Forecast("F1", "R1", "PV1", [Entry(Calendar.MonthKey(2024, 12), 50.0), Entry(Calendar.MonthKey(2025, 1), 25.0)])];
            && !Resources.IsActive(rs[0], 2025)
            && TotalByResource(fs, rs, "R1") == 75.0
            && TotalByProject(fs, rs, "PV1") == 75.0
  {
    var rs := [Resource("R1", "Ada", 100.0, Onshore, "Acme", Some(2020), Some(2024))];
    var fs := [Forecast("F1", "R1", "PV1", [Entry(Calendar.MonthKey(2024, 12), 50.0), Entry(Calendar.MonthKey(2025, 1), 25.0)])];
    assert Resources.IdsUnique(rs);
    Resources.FindUnique(rs, 0);
    assert Seqs.Filter(fs, (f: Forecast) => f.resourceId == "R1") == fs by {
      Seqs.FilterKeepsAll(fs, (f: Forecast) => f.resourceId == "R1");
    }
    assert Values(fs[0].allocations) == [50.0, 25.0];
    assert RateOf(rs, "R1") == Some(100.0);
    assert AllocationFold(0.0, 100.0, [50.0, 25.0]) == AllocationFold(50.0, 100.0, [25.0]) by {
      assert [50.0, 25.0][1..] == [25.0];
    }
    assert AllocationFold(50.0, 100.0, [25.0]) == AllocationFold(75.0, 100.0, []) == 75.0;
    assert ForecastFold(0.0, fs, (f: Forecast) => RateOf(rs, "R1")) == 75.0 by {
      assert fs[1..] == [];
    }
    assert Seqs.Filter(fs, (f: Forecast) => f.projectPvNumber == "PV1") == fs by {
      Seqs.FilterKeepsAll(fs, (f: Forecast) => f.projectPvNumber == "PV1");
    }
    assert ForecastFold(0.0, fs, (f: Forecast) => RateOf(rs, f.resourceId)) == 75.0 by {
      assert fs[1..] == [];
    }
  }
}
