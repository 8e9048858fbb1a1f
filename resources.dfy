// The resource registry page (src/pages/Resources.tsx): add, edit and delete
// resources, and the active-in-year filter that the Forecasts page shares.

module Resources {
  import opened Wrappers
  import Seqs
  import opened Model

  /** Resource ids are unique in the registry. */
  ghost predicate IdsUnique(rs: seq<Resource>) {
    forall i, j :: 0 <= i < j < |rs| ==> rs[i].id != rs[j].id
  }

  /** A resource takes part in `year` when it has no end date or its end date
      falls in `year` or later. */
  predicate IsActive(r: Resource, year: int) {
    r.endYear.None? || r.endYear.value >= year
  }

  /** `displayedResources` (and the Forecasts page's `activeResources`): the
      resources active in the selected year, in registry order. */
  function Displayed(rs: seq<Resource>, year: int): (d: seq<Resource>)
    ensures Seqs.IsSubsequence(d, rs)
    ensures forall r :: r in d <==> r in rs && IsActive(r, year)
    ensures forall r :: multiset(d)[r] == if IsActive(r, year) then multiset(rs)[r] else 0
  {
    Seqs.FilterCounts(rs, r => IsActive(r, year));
    Seqs.Filter(rs, r => IsActive(r, year))
  }

  /** `resources.find(r => r.id === id)`: the first resource with that id. */
  function Find(rs: seq<Resource>, id: string): (r: Option<Resource>)
    ensures r.Some? ==> r.value in rs && r.value.id == id
    ensures r.None? <==> forall x :: x in rs ==> x.id != id
  {
    Seqs.Find(rs, (x: Resource) => x.id == id)
  }

  /** In a registry with unique ids, looking up a resource's id finds it. */
  lemma FindUnique(rs: seq<Resource>, i: int)
    requires IdsUnique(rs) && 0 <= i < |rs|
    ensures Find(rs, rs[i].id) == Some(rs[i])
  {
    var p := (x: Resource) => x.id == rs[i].id;
    assert rs[i] in rs && p(rs[i]);
    var r := Seqs.Find(rs, p);
    var j :| 0 <= j < |rs| && rs[j] == r.value && forall k :: 0 <= k < j ==> !p(rs[k]);
    assert p(rs[j]);
    assert j == i;
  }

  /** The dialog's form data (`Partial<Resource>`): an unset text field is the
      empty string; an unset rate, or one that did not parse, is `None`. */
  datatype ResourceForm = ResourceForm(
    id: string,
    fullName: string,
    rate: Option<real>,
    location: Location,
    company: string,
    startYear: Option<int>,
    endYear: Option<int>)

  /** The required-field check: id, full name, rate and company must all be
      truthy, so a rate of 0 is refused like a missing one. */
  predicate RequiredFilled(f: ResourceForm) {
    f.id != "" && f.fullName != "" && f.rate.Some? && f.rate.value != 0.0 && f.company != ""
  }

  /** `formData as Resource`, once the required fields are known to be set. */
  function FromForm(f: ResourceForm): (r: Resource)
    requires f.rate.Some?
    ensures r.id == f.id && r.rate == f.rate.value && r.endYear == f.endYear
  {
    Resource(f.id, f.fullName, f.rate.value, f.location, f.company, f.startYear, f.endYear)
  }

  /** The edit branch: every record with the edited id becomes the form data
      with its id forced back to the edited id; the others stay as they were. */
  function Edited(rs: seq<Resource>, editId: string, f: ResourceForm): (r: seq<Resource>)
    requires f.rate.Some?
    ensures |r| == |rs|
    ensures forall i :: 0 <= i < |rs| ==> r[i].id == rs[i].id
    ensures forall i :: 0 <= i < |rs| && rs[i].id != editId ==> r[i] == rs[i]
    ensures forall i :: 0 <= i < |rs| && rs[i].id == editId ==>
      r[i] == Resource(editId, f.fullName, f.rate.value, f.location, f.company, f.startYear, f.endYear)
  {
    seq(|rs|, i requires 0 <= i < |rs| => if rs[i].id == editId then FromForm(f).(id := editId) else rs[i])
  }

  /** Editing never changes the list of ids, so it keeps them unique. */
  lemma EditedKeepsIdsUnique(rs: seq<Resource>, editId: string, f: ResourceForm)
    requires f.rate.Some? && IdsUnique(rs)
    ensures IdsUnique(Edited(rs, editId, f))
  {
  }

  /** `handleDelete`: the registry without any record carrying `id`, the others
      in their order. */
  function Without(rs: seq<Resource>, id: string): (r: seq<Resource>)
    ensures Seqs.IsSubsequence(r, rs)
    ensures forall x :: x in r <==> x in rs && x.id != id
    ensures forall x :: multiset(r)[x] == if x.id != id then multiset(rs)[x] else 0
  {
    Seqs.FilterCounts(rs, (x: Resource) => x.id != id);
    Seqs.Filter(rs, (x: Resource) => x.id != id)
  }

  /** Deleting keeps the remaining ids unique. */
  lemma WithoutKeepsIdsUnique(rs: seq<Resource>, id: string)
    requires IdsUnique(rs)
    ensures IdsUnique(Without(rs, id))
  {
    Seqs.FilterKeepsDistinct(rs, (x: Resource) => x.id != id, (x: Resource) => x.id);
  }

  datatype SubmitError = MissingRequiredField | DuplicateId

  /** The Resources page's own state: the registry it edits and the year whose
      active resources it lists. */
  class ResourcesPage {
    var resources: seq<Resource>
    const selectedYear: int

    constructor (resources: seq<Resource>, selectedYear: int)
      ensures this.resources == resources && this.selectedYear == selectedYear
    {
      this.resources := resources;
      this.selectedYear := selectedYear;
    }

    /** The rows the page shows. */
    function DisplayedResources(): (d: seq<Resource>)
      reads this
      ensures forall r :: r in d <==> r in resources && IsActive(r, selectedYear)
    {
      Displayed(resources, selectedYear)
    }

    /** `handleSubmit`: validate the form, then append a new resource or, when
        `editing` holds the resource being edited, replace it in place. */
    method Submit(form: ResourceForm, editing: Option<Resource>) returns (outcome: Outcome<SubmitError>)
      modifies this
      ensures !RequiredFilled(form) ==> outcome == Fail(MissingRequiredField) && resources == old(resources)
      ensures RequiredFilled(form) && editing.None? && (exists r :: r in old(resources) && r.id == form.id) ==>
        outcome == Fail(DuplicateId) && resources == old(resources)
      ensures RequiredFilled(form) && editing.None? && (forall r :: r in old(resources) ==> r.id != form.id) ==>
        outcome == Pass && resources == old(resources) + [FromForm(form)]
      ensures RequiredFilled(form) && editing.Some? ==>
        outcome == Pass && resources == Edited(old(resources), editing.value.id, form)
      ensures IdsUnique(old(resources)) ==> IdsUnique(resources)
    {
      if form.id == "" || form.fullName == "" || form.rate.None? || form.rate.value == 0.0 || form.company == "" {
        return Fail(MissingRequiredField);
      }
      if editing.None? {
        var existing := Find(resources, form.id);
        if existing.Some? {
          return Fail(DuplicateId);
        }
      }
      if editing.Some? {
        if IdsUnique(resources) {
          EditedKeepsIdsUnique(resources, editing.value.id, form);
        }
        resources := Edited(resources, editing.value.id, form);
      } else {
        resources := resources + [FromForm(form)];
      }
      outcome := Pass;
    }

    /** `handleDelete`. */
    method Delete(id: string)
      modifies this
      ensures resources == Without(old(resources), id)
      ensures forall r :: r in resources ==> r.id != id
      ensures IdsUnique(old(resources)) ==> IdsUnique(resources)
    {
      if IdsUnique(resources) {
        WithoutKeepsIdsUnique(resources, id);
      }
      resources := Without(resources, id);
    }
  }
}
