// The forecast page (src/pages/Forecasts.tsx): one forecast per
// (resource, project) pair, each a month-to-percentage allocation that is
// clamped to [0, 100] on every write, and the monthly cost it implies.

module Forecasts {
  import opened Wrappers
  import Seqs
  import opened Calendar
  import opened OrderedMaps
  import opened Model
  import Resources

  /** Forecast ids are unique. */
  ghost predicate IdsUnique(fs: seq<Forecast>) {
    forall i, j :: 0 <= i < j < |fs| ==> fs[i].id != fs[j].id
  }

  /** At most one forecast per (resource, project) pair. */
  ghost predicate PairsUnique(fs: seq<Forecast>) {
    forall i, j :: 0 <= i < j < |fs| ==>
      fs[i].resourceId != fs[j].resourceId || fs[i].projectPvNumber != fs[j].projectPvNumber
  }

  /** Every stored allocation is a percentage in [0, 100], once per month. */
  ghost predicate AllocationsClamped(a: Allocations) {
    KeysDistinct(a) && forall m :: Get(a, m).Some? ==> 0.0 <= Get(a, m).value <= 100.0
  }

  /** What the page's writes keep true of the collection. */
  ghost predicate Invariant(fs: seq<Forecast>) {
    IdsUnique(fs) && PairsUnique(fs) && forall f :: f in fs ==> AllocationsClamped(f.allocations)
  }

  /** `Math.min(100, Math.max(0, allocation))`. */
  function Clamp(a: real): (r: real)
    ensures 0.0 <= r <= 100.0
    ensures 0.0 <= a <= 100.0 ==> r == a
    ensures a < 0.0 ==> r == 0.0
    ensures a > 100.0 ==> r == 100.0
  {
    var low := if a < 0.0 then 0.0 else a;
    if low > 100.0 then 100.0 else low
  }

  /** Clamping a clamped value changes nothing. */
  lemma ClampIdempotent(a: real)
    ensures Clamp(Clamp(a)) == Clamp(a)
  {
  }

  /** The cost of one month at `pct` percent of a resource's monthly `rate`. */
  function CostOf(rate: real, pct: real): (c: real)
    ensures 0.0 <= rate && 0.0 <= pct <= 100.0 ==> 0.0 <= c <= rate
    ensures pct == 0.0 ==> c == 0.0
    ensures pct == 100.0 ==> c == rate
  {
    assert 0.0 <= rate && 0.0 <= pct <= 100.0 ==> rate * pct <= rate * 100.0 by {
      if 0.0 <= rate && 0.0 <= pct <= 100.0 {
        assert rate * (100.0 - pct) >= 0.0;
      }
    }
    rate * pct / 100.0
  }

  /** The cost grows with the percentage. */
  lemma CostMonotonic(rate: real, p: real, q: real)
    requires 0.0 <= rate && p <= q
    ensures CostOf(rate, p) <= CostOf(rate, q)
  {
    assert rate * (q - p) >= 0.0;
  }

  /** `calculateMonthlyCost`: the resource's rate times the month's allocation,
      an absent month counting as 0 and a missing resource giving 0. */
  function MonthlyCost(rs: seq<Resource>, f: Forecast, month: MonthKey): (c: real)
    ensures Resources.Find(rs, f.resourceId).None? ==> c == 0.0
    ensures Get(f.allocations, month).None? ==> c == 0.0
    ensures Resources.Find(rs, f.resourceId).Some? && Get(f.allocations, month).Some? ==>
      c == CostOf(Resources.Find(rs, f.resourceId).value.rate, Get(f.allocations, month).value)
    ensures AllocationsClamped(f.allocations) && Resources.Find(rs, f.resourceId).Some? &&
            Resources.Find(rs, f.resourceId).value.rate >= 0.0 ==>
      0.0 <= c <= Resources.Find(rs, f.resourceId).value.rate
  {
    var resource := Resources.Find(rs, f.resourceId);
    var allocation := Get(f.allocations, month).GetOr(0.0);
    if resource.None? then 0.0 else CostOf(resource.value.rate, allocation)
  }

  /** The first forecast for a (resource, project) pair. */
  function FindForecast(fs: seq<Forecast>, resourceId: string, projectPvNumber: string): (r: Option<Forecast>)
    ensures r.Some? ==> r.value in fs && r.value.resourceId == resourceId && r.value.projectPvNumber == projectPvNumber
    ensures r.None? <==> forall f :: f in fs ==> f.resourceId != resourceId || f.projectPvNumber != projectPvNumber
  {
    Seqs.Find(fs, (f: Forecast) => f.resourceId == resourceId && f.projectPvNumber == projectPvNumber)
  }

  /** With one forecast per pair, the lookup finds the pair's forecast. */
  lemma FindForecastUnique(fs: seq<Forecast>, i: int)
    requires PairsUnique(fs) && 0 <= i < |fs|
    ensures FindForecast(fs, fs[i].resourceId, fs[i].projectPvNumber) == Some(fs[i])
  {
    var p := (f: Forecast) => f.resourceId == fs[i].resourceId && f.projectPvNumber == fs[i].projectPvNumber;
    assert fs[i] in fs && p(fs[i]);
    var r := Seqs.Find(fs, p);
    var j :| 0 <= j < |fs| && fs[j] == r.value && forall k :: 0 <= k < j ==> !p(fs[k]);
    assert p(fs[j]);
    assert j == i;
  }

  /** The forecast a successful add appends: the chosen pair, no allocations. */
  function NewForecast(id: string, resourceId: string, projectPvNumber: string): (f: Forecast)
    ensures f.allocations == [] && AllocationsClamped(f.allocations)
    ensures forall m :: Get(f.allocations, m).None?
  {
    Forecast(id, resourceId, projectPvNumber, [])
  }

  /** Appending a forecast with a fresh id and a fresh pair keeps the invariant. */
  lemma AppendKeepsInvariant(fs: seq<Forecast>, f: Forecast)
    requires Invariant(fs) && AllocationsClamped(f.allocations)
    requires forall g :: g in fs ==> g.id != f.id
    requires FindForecast(fs, f.resourceId, f.projectPvNumber).None?
    ensures Invariant(fs + [f])
  {
    var r := fs + [f];
    forall i, j | 0 <= i < j < |r|
      ensures r[i].id != r[j].id
      ensures r[i].resourceId != r[j].resourceId || r[i].projectPvNumber != r[j].projectPvNumber
    {
      if j == |fs| {
        assert r[i] in fs;
      }
    }
  }

  /** `handleAllocationChange`: every forecast with `forecastId` gets
      `Clamp(allocation)` under `month`; nothing else changes. */
  function WithAllocation(fs: seq<Forecast>, forecastId: string, month: MonthKey, allocation: real): (r: seq<Forecast>)
    ensures |r| == |fs|
    ensures forall i :: 0 <= i < |fs| && fs[i].id != forecastId ==> r[i] == fs[i]
    ensures forall i :: 0 <= i < |fs| && fs[i].id == forecastId ==>
      && r[i].id == fs[i].id
      && r[i].resourceId == fs[i].resourceId
      && r[i].projectPvNumber == fs[i].projectPvNumber
      && Get(r[i].allocations, month) == Some(Clamp(allocation))
      && forall m :: m != month ==> Get(r[i].allocations, m) == Get(fs[i].allocations, m)
  {
    seq(|fs|, i requires 0 <= i < |fs| =>
      if fs[i].id == forecastId then fs[i].(allocations := Put(fs[i].allocations, month, Clamp(allocation)))
      else fs[i])
  }

  /** An allocation change keeps ids, pairs and clamping intact. */
  lemma WithAllocationKeepsInvariant(fs: seq<Forecast>, forecastId: string, month: MonthKey, allocation: real)
    requires Invariant(fs)
    ensures Invariant(WithAllocation(fs, forecastId, month, allocation))
  {
    var r := WithAllocation(fs, forecastId, month, allocation);
    forall f | f in r ensures AllocationsClamped(f.allocations) {
      var i :| 0 <= i < |r| && r[i] == f;
      assert fs[i] in fs;
      if fs[i].id == forecastId {
        PutKeysDistinct(fs[i].allocations, month, Clamp(allocation));
      }
    }
  }

  /** `handleDelete`: the forecasts without `id`, the others in order. */
  function WithoutForecast(fs: seq<Forecast>, id: string): (r: seq<Forecast>)
    ensures Seqs.IsSubsequence(r, fs)
    ensures forall f :: f in r <==> f in fs && f.id != id
    ensures forall f :: multiset(r)[f] == if f.id != id then multiset(fs)[f] else 0
  {
    Seqs.FilterCounts(fs, (f: Forecast) => f.id != id);
    Seqs.Filter(fs, (f: Forecast) => f.id != id)
  }

  /** Deleting keeps ids, pairs and clamping intact. */
  lemma WithoutForecastKeepsInvariant(fs: seq<Forecast>, id: string)
    requires Invariant(fs)
    ensures Invariant(WithoutForecast(fs, id))
  {
    var keep := (f: Forecast) => f.id != id;
    Seqs.FilterKeepsDistinct(fs, keep, (f: Forecast) => f.id);
    Seqs.FilterKeepsDistinct(fs, keep, (f: Forecast) => (f.resourceId, f.projectPvNumber));
  }

  datatype AddError = MissingSelection | AlreadyAssigned

  /** The Forecasts page's own state: the forecasts it edits, and the
      registries and year it only reads. */
  class ForecastsPage {
    var forecasts: seq<Forecast>
    const resources: seq<Resource>
    const projects: seq<Project>
    const selectedYear: int

    constructor (forecasts: seq<Forecast>, resources: seq<Resource>, projects: seq<Project>, selectedYear: int)
      ensures this.forecasts == forecasts && this.resources == resources
      ensures this.projects == projects && this.selectedYear == selectedYear
    {
      this.forecasts := forecasts;
      this.resources := resources;
      this.projects := projects;
      this.selectedYear := selectedYear;
    }

    /** `activeResources`: the resources the add dialog offers. */
    function ActiveResources(): (rs: seq<Resource>)
      ensures forall r :: r in rs <==> r in resources && Resources.IsActive(r, selectedYear)
    {
      Resources.Displayed(resources, selectedYear)
    }

    /** `months`: the 12 columns of the selected year. */
    function Months(): (ks: seq<MonthKey>)
      ensures |ks| == 12 && forall k :: k in ks <==> Valid(k) && k.year == selectedYear
    {
      MonthsOfYear(selectedYear)
    }

    /** `handleAddForecast`: both selections must be made and the pair must
        not have a forecast yet; then a forecast with no allocations is
        appended. `newId` stands for `crypto.randomUUID()`. */
    method AddForecast(selectedResource: string, selectedProject: string, newId: string)
      returns (outcome: Outcome<AddError>)
      requires forall f :: f in forecasts ==> f.id != newId
      modifies this
      ensures selectedResource == "" || selectedProject == "" ==>
        outcome == Fail(MissingSelection) && forecasts == old(forecasts)
      ensures selectedResource != "" && selectedProject != "" &&
              FindForecast(old(forecasts), selectedResource, selectedProject).Some? ==>
        outcome == Fail(AlreadyAssigned) && forecasts == old(forecasts)
      ensures selectedResource != "" && selectedProject != "" &&
              FindForecast(old(forecasts), selectedResource, selectedProject).None? ==>
        outcome == Pass && forecasts == old(forecasts) + [NewForecast(newId, selectedResource, selectedProject)]
      ensures Invariant(old(forecasts)) ==> Invariant(forecasts)
    {
      if selectedResource == "" || selectedProject == "" {
        return Fail(MissingSelection);
      }
      var existing := FindForecast(forecasts, selectedResource, selectedProject);
      if existing.Some? {
        return Fail(AlreadyAssigned);
      }
      var f := NewForecast(newId, selectedResource, selectedProject);
      if Invariant(forecasts) {
        AppendKeepsInvariant(forecasts, f);
      }
      forecasts := forecasts + [f];
      outcome := Pass;
    }

    /** `handleDelete`. */
    method DeleteForecast(id: string)
      modifies this
      ensures forecasts == WithoutForecast(old(forecasts), id)
      ensures Invariant(old(forecasts)) ==> Invariant(forecasts)
    {
      if Invariant(forecasts) {
        WithoutForecastKeepsInvariant(forecasts, id);
      }
      forecasts := WithoutForecast(forecasts, id);
    }

    /** `handleAllocationChange`. */
    method ChangeAllocation(forecastId: string, month: MonthKey, allocation: real)
      modifies this
      ensures forecasts == WithAllocation(old(forecasts), forecastId, month, allocation)
      ensures Invariant(old(forecasts)) ==> Invariant(forecasts)
    {
      if Invariant(forecasts) {
        WithAllocationKeepsInvariant(forecasts, forecastId, month, allocation);
      }
      forecasts := WithAllocation(forecasts, forecastId, month, allocation);
    }

    /** The allocation cell's `onChange`: the typed text parsed as a number,
        `None` when it does not parse, and `parseFloat(...) || 0` turning that
        into 0 before the change is applied. */
    method EnterAllocation(forecastId: string, month: MonthKey, parsed: Option<real>)
      modifies this
      ensures forecasts == WithAllocation(old(forecasts), forecastId, month, parsed.GetOr(0.0))
      ensures Invariant(old(forecasts)) ==> Invariant(forecasts)
    {
      ChangeAllocation(forecastId, month, parsed.GetOr(0.0));
    }
  }
}
