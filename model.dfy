// The four record types the tracker keeps in browser storage
// (src/types/index.ts).

module Model {
  import opened Wrappers
  import opened Calendar
  import opened OrderedMaps

  datatype Location = Onshore | Offshore

  /** A staffable person with a monthly billing rate. Dates are kept as the
      year of the ISO date (`None` for an empty or missing date), which is all
      the tracker ever reads of them. */
  datatype Resource = Resource(
    id: string,
    fullName: string,
    rate: real,
    location: Location,
    company: string,
    startYear: Option<int>,
    endYear: Option<int>)

  /** A funded project; `budget` is `None` when the field was left empty
      (undefined, or NaN from parsing an empty input). */
  datatype Project = Project(
    pvNumber: string,
    name: string,
    oracleAccount: string,
    budget: Option<real>)

  /** Month key to allocation percentage, in the insertion order of the
      page's object literal. */
  type Allocations = OrderedMap<MonthKey, real>

  /** A planned month-by-month allocation of one resource to one project. */
  datatype Forecast = Forecast(
    id: string,
    resourceId: string,
    projectPvNumber: string,
    allocations: Allocations)

  /** A realised capital cost of one resource on one project in one month. */
  datatype Actual = Actual(
    id: string,
    resourceId: string,
    projectPvNumber: string,
    month: MonthKey,
    capitalCost: real)
}
