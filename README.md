# Capital forecast tracker — verified model of the bookkeeping core

The tracker is a single-page React application for planning and tracking staff
capital expenditure. It keeps four collections: resources (people with a
monthly rate), projects (identified by a PV number, with an optional budget),
forecasts (one per resource/project pair, each a month → percentage map) and
actuals (the realised capital cost of one resource on one project in one month).
All of its bookkeeping lives inside the page components. This project models
that bookkeeping in Dafny and proves what the pages promise about it.

The modules follow the pages:

- `Wrappers`, `Seqs`, `OrderedMaps` (collections.dfy): shared vocabulary.
  - `Option`, plus an `Outcome` for writes that are rejected.
  - `Array.prototype.filter` and `find`.
  - The insertion-ordered dictionary that a JavaScript object literal or a
    JavaScript `Map` behaves as.
- `Calendar` (calendar.dfy): `YYYY-MM` month keys as (year, month) pairs, the
  12 columns of a year, and the month before a month.
- `Model` (model.dfy): the four record types.
- `Resources`, `Projects`, `Forecasts`, `Actuals` (resources.dfy, projects.dfy,
  forecasts.dfy, actuals.dfy): one module per editing page.
  - Each page is a class. It holds the collection it writes as a `var` and the
    collections it only reads as `const`s.
  - Each handler is a method with `modifies this`. Its `ensures` ties the new
    collection to a pure function of the old one and states that the
    collection's invariant is kept.
  - Unique keys are the invariant. Forecasts and actuals add their composite
    keys; forecasts add clamped allocations.
  - Lemmas beside each module prove the properties of those pure functions.
- `Summary` (summary.dfy): the read-only totals page. Its totals are folds,
  each proved equal to an independent reference sum. The summary views are
  proved to agree with one another.

Two behaviours of the summary page are worth knowing, and the model keeps
both:

- The summary totals add every allocation a forecast holds, in any year,
  although the other pages show one year at a time.
- A project counts as over budget only when its budget is truthy. A budget of
  0 behaves like a missing one.

Ids that the pages draw from `crypto.randomUUID()` are passed in as a
parameter, with a precondition that the id is not in use.

## Model

| member | source | states |
|---|---|---|
| Seqs.Filter | src/pages/Forecasts.tsx:62 | `Array.prototype.filter`: the result is a subsequence of the input, and an element is in it iff it is in the input and kept. |
| Seqs.FilterCounts | src/pages/Forecasts.tsx:62 | Filtering keeps each kept element exactly as many times as the input holds it and drops all others. |
| Seqs.FilterKeepsDistinct | src/pages/Forecasts.tsx:62 | Filtering keeps any key that was unique still unique. |
| Seqs.Find | src/pages/Forecasts.tsx:38-40 | `Array.prototype.find`: `None` iff no element matches. Otherwise the result is the first matching element. |
| OrderedMaps.Get | src/pages/Forecasts.tsx:83 | Object property read: `None` iff the key is absent. Otherwise the result is the value of an entry with that key. |
| OrderedMaps.Put | src/pages/Forecasts.tsx:71-74 | Object spread with one key. Afterwards the key reads the new value and every other key reads what it read before. A new key is appended; an existing key keeps its position. |
| OrderedMaps.PutKeysDistinct | src/pages/Forecasts.tsx:71-74 | Putting a key never duplicates a key. |
| OrderedMaps.GetEntry | src/pages/Actuals.tsx:93 | With distinct keys, reading an entry's key yields that entry's value. |
| Calendar.MonthsOfYear | src/pages/Forecasts.tsx:92-95 | Exactly 12 keys, `Y-01` to `Y-12` in order. A key is in the list iff it is a valid month of year `Y`. |
| Calendar.PreviousMonth | src/pages/Actuals.tsx:25-29 | The result is a valid month whose index is one less. January goes to December of the year before; any other month keeps its year. |
| Calendar.PreviousNextRoundTrip | src/pages/Actuals.tsx:25-29 | `NextMonth(PreviousMonth(k)) == k` and `PreviousMonth(NextMonth(k)) == k` for every valid month. |
| Calendar.MonthsBackIsExact | src/pages/Actuals.tsx:25-29 | Stepping back `n` times lands exactly `n` months earlier, with no drift across year boundaries. |
| Calendar.TwelveMonthsBack | src/pages/Actuals.tsx:25-29 | Twelve steps back keep the month and decrement the year. |
| Resources.IsActive | src/pages/Resources.tsx:22-26 | A resource is active in a year iff it has no end year or its end year is that year or later. It has no contract of its own; `Displayed` and `ActiveResources` state their results through it. |
| Resources.Displayed | src/pages/Resources.tsx:22-26 | The displayed list is a subsequence of the registry. A resource is in it iff it has no end year or its end year is at least the selected year. |
| Resources.Find | src/pages/Forecasts.tsx:82 | `None` iff no resource has the id. Otherwise the result is a resource with that id. |
| Resources.FindUnique | src/pages/Forecasts.tsx:82 | With unique ids, looking up a resource's id finds that resource. |
| Resources.FromForm | src/pages/Resources.tsx:49-51 | The new record carries the form's id, rate and end year. |
| Resources.Edited | src/pages/Resources.tsx:45-46 | Same length and the same id at every index. Records with other ids are unchanged. The edited record becomes the form data with its original id. |
| Resources.EditedKeepsIdsUnique | src/pages/Resources.tsx:45-46 | An edit keeps the id at every index, so it keeps ids unique. |
| Resources.WithoutKeepsIdsUnique | src/pages/Resources.tsx:67-68 | Deleting keeps ids unique. |
| Resources.Without | src/pages/Resources.tsx:67-68 | The result holds every record without that id, in order; no record with that id remains. |
| Resources.ResourcesPage.DisplayedResources | src/pages/Resources.tsx:22-26 | The page lists exactly the registry's resources that are active in the selected year. |
| Resources.RequiredFilled | src/pages/Resources.tsx:31 | Id, full name, rate and company are all truthy; a rate of 0 fails. It has no contract of its own; `ResourcesPage.Submit` rejects exactly the forms that fail it. |
| Resources.ResourcesPage.Submit | src/pages/Resources.tsx:28-59 | A falsy id, name, rate or company is rejected, and a rate of 0 counts as falsy. Adding a taken id is rejected. Either rejection leaves the registry unchanged. A valid add appends one record. An edit replaces the edited record with its id kept. Id uniqueness is preserved. |
| Resources.ResourcesPage.Delete | src/pages/Resources.tsx:67-70 | The registry loses every record with the id and keeps the rest in order. Id uniqueness is preserved. |
| Projects.Edited | src/pages/Projects.tsx:28 | Same length. Records with other PV numbers are unchanged. Every record with the edited PV number becomes the form data as it stands. |
| Projects.EditedKeepsPvNumbersUnique | src/pages/Projects.tsx:28 | While the form keeps the edited PV number, an edit keeps PV numbers unique. |
| Projects.EditedWithForeignPvNumberDuplicates | src/pages/Projects.tsx:28 | The edit itself checks nothing: a form carrying another project's PV number produces a duplicate. |
| Projects.Without | src/pages/Projects.tsx:50-51 | The result holds every record without that PV number, in order. |
| Projects.WithoutKeepsPvNumbersUnique | src/pages/Projects.tsx:50-51 | Deleting keeps PV numbers unique. |
| Projects.RequiredFilled | src/pages/Projects.tsx:22 | PV number, name and Oracle account are all non-empty; the budget is optional. It has no contract of its own; `ProjectsPage.Submit` rejects exactly the forms that fail it. |
| Projects.ProjectsPage.Submit | src/pages/Projects.tsx:19-42 | A falsy PV number, name or Oracle account is rejected. Adding a taken PV number is rejected. Either rejection leaves the registry unchanged. A valid add appends the form. An edit replaces the edited PV number's records. Uniqueness is preserved while the PV number is not changed on edit. |
| Projects.ProjectsPage.Delete | src/pages/Projects.tsx:50-53 | The registry loses every record with the PV number and keeps the rest in order. Uniqueness is preserved. |
| Forecasts.Clamp | src/pages/Forecasts.tsx:73 | The result lies in [0, 100]. It is the input inside that range, 0 below it and 100 above it. |
| Forecasts.ClampIdempotent | src/pages/Forecasts.tsx:73 | Clamping twice equals clamping once. |
| Forecasts.CostOf | src/pages/Forecasts.tsx:85 | For a rate of at least 0 and a percentage in [0, 100], the cost lies in [0, rate]. It is 0 at 0 percent and the full rate at 100 percent. |
| Forecasts.CostMonotonic | src/pages/Forecasts.tsx:85 | The cost does not decrease as the percentage grows. |
| Forecasts.MonthlyCost | src/pages/Forecasts.tsx:81-86 | 0 for a missing resource or an absent month. Otherwise the `CostOf` of the rate and the allocation. For clamped allocations the cost lies in [0, rate]. |
| Forecasts.FindForecast | src/pages/Forecasts.tsx:38-40 | `None` iff no forecast has the pair. Otherwise the result is a forecast with that pair. |
| Forecasts.FindForecastUnique | src/pages/Forecasts.tsx:38-40 | With one forecast per pair, the lookup finds the pair's forecast. |
| Forecasts.NewForecast | src/pages/Forecasts.tsx:47-52 | The new forecast has no allocations: every month reads as absent. |
| Forecasts.AppendKeepsInvariant | src/pages/Forecasts.tsx:47-54 | Appending with a fresh id and a pair that has no forecast keeps ids unique, pairs unique and allocations clamped. |
| Forecasts.WithAllocation | src/pages/Forecasts.tsx:66-79 | Other forecasts are unchanged. The chosen forecast keeps its id and pair, reads `Clamp(allocation)` at the month, and reads its old values at every other month. |
| Forecasts.WithAllocationKeepsInvariant | src/pages/Forecasts.tsx:66-79 | An allocation change keeps ids unique, pairs unique and allocations clamped. |
| Forecasts.WithoutForecast | src/pages/Forecasts.tsx:61-62 | The result holds every forecast without that id, in order. |
| Forecasts.WithoutForecastKeepsInvariant | src/pages/Forecasts.tsx:61-62 | Deleting keeps the invariant. |
| Forecasts.ForecastsPage.ActiveResources | src/pages/Forecasts.tsx:26-30 | The dialog offers exactly the resources active in the selected year. |
| Forecasts.ForecastsPage.Months | src/pages/Forecasts.tsx:92-95 | The columns are the 12 months of the selected year. |
| Forecasts.ForecastsPage.AddForecast | src/pages/Forecasts.tsx:32-59 | An empty selection is rejected. A pair that already has a forecast is rejected. Either rejection leaves the forecasts unchanged. Otherwise one empty forecast is appended and the prior ones are unchanged. The invariant is kept. |
| Forecasts.ForecastsPage.DeleteForecast | src/pages/Forecasts.tsx:61-64 | The new collection is `WithoutForecast` of the old one, and the invariant is kept. |
| Forecasts.ForecastsPage.ChangeAllocation | src/pages/Forecasts.tsx:66-79 | The new collection is `WithAllocation` of the old one, and the invariant is kept. |
| Forecasts.ForecastsPage.EnterAllocation | src/pages/Forecasts.tsx:206-207 | Unparsable input is written as 0. The stored value is the clamped number. |
| Actuals.FindActual | src/pages/Actuals.tsx:41-43 | `None` iff no actual has the (resource, project, month) cell. Otherwise the result is an actual of that cell. |
| Actuals.GetActualValue | src/pages/Actuals.tsx:32-37 | `None` iff the cell has no actual. Otherwise the result is the cost of an actual of that cell. |
| Actuals.FindActualAt | src/pages/Actuals.tsx:32-37 | With one actual per cell, reading a cell returns that cell's own actual and cost. |
| Actuals.WithCost | src/pages/Actuals.tsx:55-57 | Only `capitalCost` of the actual with the id changes. Ids, cells and all other actuals are unchanged. |
| Actuals.Changed | src/pages/Actuals.tsx:40-68 | The collection after `handleActualChange`. It has no contract of its own. `ChangedKeepsInvariant`, `ChangedReadsBack`, `ChangedLeavesOtherCells` and `UpsertTwiceKeepsIdentity` state what it does. |
| Actuals.ChangedKeepsInvariant | src/pages/Actuals.tsx:40-68 | With a fresh id, every write keeps ids unique and cells unique. Writing a non-negative cost keeps costs non-negative. |
| Actuals.ChangedReadsBack | src/pages/Actuals.tsx:40-68 | After a write the cell reads exactly the value written. `None` means no actual remains for the cell, and is a no-op when there was none. |
| Actuals.ChangedLeavesOtherCells | src/pages/Actuals.tsx:40-68 | A write leaves the value of every other cell as it was. |
| Actuals.UpsertTwiceKeepsIdentity | src/pages/Actuals.tsx:54-66 | Writing a cell twice leaves exactly one actual for it. That actual has the latest cost and the id from the first write. |
| Actuals.HasForecastForMonth | src/pages/Actuals.tsx:86-95 | True only if a forecast of the pair has a positive allocation in the month. False when every forecast of the pair has a zero or absent allocation there. |
| Actuals.HasForecastExactly | src/pages/Actuals.tsx:86-95 | With one forecast per pair, true iff the pair's forecast allocates more than 0 percent in the month. |
| Actuals.CellEditable | src/pages/Actuals.tsx:150-156 | A cell is an input only when the month before has a positive forecast allocation. It has no contract of its own; `JanuaryCellReadsDecember` states the year boundary, and `ActualsPage.EditCell` requires it. |
| Actuals.JanuaryCellReadsDecember | src/pages/Actuals.tsx:150-152 | A January actual cell is editable iff December of the year before carries a positive allocation. |
| Actuals.InputToWrite | src/pages/Actuals.tsx:167-177 | Empty input, and only empty input, asks for a delete. A value is written only if it parsed and is at least 0. Negative or unparsable input asks for nothing. |
| Actuals.RowTable | src/pages/Actuals.tsx:72-80 | The `Map` that the `forEach` loop builds, for any key function. It has no contract of its own; `RowTableKeysDistinct` and `RowTableLookup` state it. |
| Actuals.Rows | src/pages/Actuals.tsx:82 | The values of that `Map`, in first-seen key order. It has no contract of its own; `RowsByKey` states it. |
| Actuals.RowTableKeysDistinct | src/pages/Actuals.tsx:72-80 | The `Map` built over the forecasts never holds a key twice. |
| Actuals.RowTableLookup | src/pages/Actuals.tsx:72-80 | Every forecast's key is in the `Map`. Each key maps to the pair of a forecast with that key. |
| Actuals.RowsByKey | src/pages/Actuals.tsx:71-83 | Rows come only from forecasts. Row keys are distinct, and every forecast's key labels a row. |
| Actuals.UniqueCombos | src/pages/Actuals.tsx:71-83 | The loop over the forecasts yields `Rows` for the given key. |
| Actuals.WrittenRows | src/pages/Actuals.tsx:71-83 | The rows under the page's string key. It has no contract of its own; `RowsByKey` holds for it, and `StringKeysCollide` shows a pair it drops. |
| Actuals.StringKeysCollide | src/pages/Actuals.tsx:75 | Forecasts for ("a-b", "c") and ("a", "b-c") yield one row under the string key. The first pair gets no row. |
| Actuals.PairRows | src/pages/Actuals.tsx:71-83 | The rows keyed by the pair itself. It has no contract of its own; `PairRowsExact` states it. |
| Actuals.PairRowsExact | src/pages/Actuals.tsx:71-83 | Keyed by the pair, the rows are exactly the forecasts' pairs, each listed once. |
| Actuals.ActualsPage.HandleActualChange | src/pages/Actuals.tsx:40-68 | The new collection is `Changed` of the old one. Uniqueness is kept and the cell reads the value written. |
| Actuals.ActualsPage.EditCell | src/pages/Actuals.tsx:150-177 | Only a row's cell in the selected year whose previous month has a positive forecast can be edited. The input rule decides the write: nothing, a delete or an upsert. Uniqueness and non-negative costs are kept. |
| Summary.AllocationFold | src/pages/Summary.tsx:19-22 | The inner `reduce`, as a left fold. It has no contract of its own; `AllocationFoldIsSum` states it. |
| Summary.AllocationFoldIsSum | src/pages/Summary.tsx:19-22 | The inner `reduce` adds exactly the sum of `rate * a / 100` over all allocation values. |
| Summary.CostSumNonNegative | src/pages/Summary.tsx:19-22 | Non-negative rate and allocations give a non-negative sum. |
| Summary.RateOf | src/pages/Summary.tsx:16 | `None` iff no resource has the id. Otherwise the result is the rate of a resource with that id. |
| Summary.ForecastFold | src/pages/Summary.tsx:15-24 | The outer `reduce` over the filtered forecasts, skipping a forecast whose rate lookup fails. It has no contract of its own; `FilteredFoldIsSum` and `ForecastFoldWithoutRates` state it. |
| Summary.TotalByResource | src/pages/Summary.tsx:12-25 | `calculateTotalByResource`. It has no contract of its own; `TotalByResourceIsSum`, `TotalOfMissingResource` and `TotalsNonNegative` state it. |
| Summary.TotalByProject | src/pages/Summary.tsx:27-40 | `calculateTotalByProject`. It has no contract of its own; `TotalByProjectIsSum` and `TotalsNonNegative` state it. |
| Summary.FilteredFoldIsSum | src/pages/Summary.tsx:28-39 | Filter-then-`reduce` equals the reference sum over the selected forecasts of each one's contribution. |
| Summary.TotalByResourceIsSum | src/pages/Summary.tsx:12-25 | The resource total is the summed own cost of the resource's forecasts, over every allocation, with no month or year filter. |
| Summary.TotalByProjectIsSum | src/pages/Summary.tsx:27-40 | The project total sums the project's forecasts, each at the rate of its own resource. |
| Summary.OwnCostOfMissingResource | src/pages/Summary.tsx:31-32 | A forecast whose resource is missing contributes 0. |
| Summary.ForecastFoldWithoutRates | src/pages/Summary.tsx:16-17 | When no rate lookup succeeds, the fold returns its start value. |
| Summary.TotalOfMissingResource | src/pages/Summary.tsx:16-17 | The total of an id that no resource has is 0. |
| Summary.OwnCostNonNegative | src/pages/Summary.tsx:19-22 | A forecast's own cost is non-negative for non-negative rates and allocations. |
| Summary.SumWhereNonNegative | src/pages/Summary.tsx:19-22 | Any selection of forecasts has a non-negative summed cost. |
| Summary.TotalsNonNegative | src/pages/Summary.tsx:12-40 | Both totals are non-negative when all rates and allocations are. |
| Summary.EmptyForecastAddsNothing | src/pages/Summary.tsx:19-22 | A forecast without allocations changes neither total. |
| Summary.OverallFold | src/pages/Summary.tsx:42-44 | The `reduce` over the resources that adds each one's total. It has no contract of its own; `OverallFoldIsSum` states it. |
| Summary.OverallTotal | src/pages/Summary.tsx:42-44 | `overallTotal`. It has no contract of its own; `OverallTotalIsGrandTotal` states it. |
| Summary.OverallFoldIsSum | src/pages/Summary.tsx:42-44 | Over resources with distinct ids, the outer `reduce` adds the own cost of every forecast whose resource is listed. |
| Summary.OverallTotalIsGrandTotal | src/pages/Summary.tsx:42-44 | With unique resource ids, `overallTotal` counts every forecast exactly once, at its own resource's rate. |
| Summary.ProjectTotalsIsSum | src/pages/Summary.tsx:27-40 | Over projects with distinct PV numbers, the project totals add the own cost of every forecast whose project is listed. |
| Summary.ProjectTotalsAddUpToOverall | src/pages/Summary.tsx:27-44 | Assume unique ids, unique PV numbers, and a registered project for every forecast. Then the project totals add up to the overall total. |
| Summary.IsOverBudget | src/pages/Summary.tsx:138 | The truthy-budget test. It has no contract of its own; `OverBudgetCases` states it case by case. |
| Summary.OverBudgetCases | src/pages/Summary.tsx:138 | A missing or zero budget is never exceeded. A positive budget is exceeded exactly by a larger total. |
| Summary.OverBudgetStaysOver | src/pages/Summary.tsx:137-138 | With non-negative rates and allocations, a project flagged over budget stays flagged when a forecast is added: its total cannot fall. |
| Summary.HalfAllocationExample | src/pages/Summary.tsx:12-44 | A rate of 100 at 50 percent gives 50 for the resource, the project and overall. That exceeds a budget of 40. |
| Summary.EndedResourceStillCounts | src/pages/Summary.tsx:12-40 | A resource that ended before the selected year still has all of its allocations counted, in both totals. |

## Left out

- Rendering is not modelled: tables, dialogs, sticky headers, toasts, navigation and routing. The resource and project name lookups that show "Unknown" belong to the display only.
- Persistence through `useLocalStorage` is not modelled. Each page's collections and the selected year are in-memory fields, and changing the selected year is not modelled.
- `crypto.randomUUID()` is a foreign call. The model takes a fresh id as a parameter and requires that it is unused.
- Date handling is reduced to years and month pairs:
  - An end date is kept as its year. The timezone sensitivity of `new Date(...).getFullYear()` is not modelled.
  - A month key is a (year, month) pair. Its `YYYY-MM` text, zero padding, and date-fns parsing of malformed keys are not modelled.
- Calendar.PreviousMonth: requires a valid month. The page only ever passes the `months` columns, which are valid.
- Number parsing and formatting are out of scope:
  - Money and percentages are mathematical reals, so floating-point rounding is not captured.
  - `parseFloat` is taken as already applied: its result, or `None` for NaN, is the input.
  - `toFixed(2)` display is not modelled.
- Resources.ResourceForm: models the dialog's partial form with `""` and `None` for unset fields. Text that JavaScript would treat as truthy in other ways is not distinguished.
- Actuals.ActualsPage.EditCell: takes its rows from `PairRows`, the corrected rows, not the string-keyed rows the page builds (see Findings).
- Summary: the totals page lists every resource, active or not, as the code does; no activity filter is applied.

## Findings

| source | as written | input that shows it | evidently intended | confidence | as-written member | corrected member |
|---|---|---|---|---|---|---|
| src/pages/Actuals.tsx:75 | Rows are keyed by the string `${resourceId}-${projectPvNumber}`, so two different pairs can share a key. The later pair then replaces the earlier one. | Forecasts for resource "a-b" on project "c" and for resource "a" on project "b-c" both have the key "a-b-c". Only ("a", "b-c") gets a row, so the actuals of ("a-b", "c") cannot be entered. | One row per distinct (resource, project) pair | not executed | Actuals.StringKeysCollide | Actuals.PairRowsExact |
