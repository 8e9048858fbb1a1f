// The project registry page (src/pages/Projects.tsx): add, edit and delete
// projects, keyed by their PV number.

module Projects {
  import opened Wrappers
  import Seqs
  import opened Model

  /** PV numbers are unique in the registry. */
  ghost predicate PvNumbersUnique(ps: seq<Project>) {
    forall i, j :: 0 <= i < j < |ps| ==> ps[i].pvNumber != ps[j].pvNumber
  }

  /** The required-field check: PV number, name and Oracle account must be
      non-empty; the budget is optional. */
  predicate RequiredFilled(f: Project) {
    f.pvNumber != "" && f.name != "" && f.oracleAccount != ""
  }

  /** The edit branch: every record whose PV number is the edited one becomes
      the form data as it stands; the others stay as they were. */
  function Edited(ps: seq<Project>, pvNumber: string, form: Project): (r: seq<Project>)
    ensures |r| == |ps|
    ensures forall i :: 0 <= i < |ps| && ps[i].pvNumber != pvNumber ==> r[i] == ps[i]
    ensures forall i :: 0 <= i < |ps| && ps[i].pvNumber == pvNumber ==> r[i] == form
  {
    seq(|ps|, i requires 0 <= i < |ps| => if ps[i].pvNumber == pvNumber then form else ps[i])
  }

  /** While the form keeps the edited PV number (the page disables that field
      in edit mode), an edit keeps PV numbers unique. */
  lemma EditedKeepsPvNumbersUnique(ps: seq<Project>, pvNumber: string, form: Project)
    requires PvNumbersUnique(ps) && form.pvNumber == pvNumber
    ensures PvNumbersUnique(Edited(ps, pvNumber, form))
  {
    var r := Edited(ps, pvNumber, form);
    assert forall i :: 0 <= i < |ps| ==> r[i].pvNumber == ps[i].pvNumber;
  }

  /** The edit itself checks nothing: a form carrying another project's PV
      number would leave two records with that number. */
  lemma EditedWithForeignPvNumberDuplicates()
    ensures var ps := [Project("PV1", "Alpha", "A-1", None), Project("PV2", "Beta", "B-2", None)];
            !PvNumbersUnique(Edited(ps, "PV1", Project("PV2", "Alpha", "A-1", None)))
  {
    var ps := [Project("PV1", "Alpha", "A-1", None), Project("PV2", "Beta", "B-2", None)];
    var r := Edited(ps, "PV1", Project("PV2", "Alpha", "A-1", None));
    assert r[0].pvNumber == r[1].pvNumber;
  }

  /** `handleDelete`: the registry without any record carrying `pvNumber`, the
      others in their order. */
  function Without(ps: seq<Project>, pvNumber: string): (r: seq<Project>)
    ensures Seqs.IsSubsequence(r, ps)
    ensures forall p :: p in r <==> p in ps && p.pvNumber != pvNumber
    ensures forall p :: multiset(r)[p] == if p.pvNumber != pvNumber then multiset(ps)[p] else 0
  {
    Seqs.FilterCounts(ps, (p: Project) => p.pvNumber != pvNumber);
    Seqs.Filter(ps, (p: Project) => p.pvNumber != pvNumber)
  }

  /** Deleting keeps the remaining PV numbers unique. */
  lemma WithoutKeepsPvNumbersUnique(ps: seq<Project>, pvNumber: string)
    requires PvNumbersUnique(ps)
    ensures PvNumbersUnique(Without(ps, pvNumber))
  {
    Seqs.FilterKeepsDistinct(ps, (p: Project) => p.pvNumber != pvNumber, (p: Project) => p.pvNumber);
  }

  datatype SubmitError = MissingRequiredField | DuplicatePvNumber

  /** The Projects page's own state: the registry it edits. */
  class ProjectsPage {
    var projects: seq<Project>

    constructor (projects: seq<Project>)
      ensures this.projects == projects
    {
      this.projects := projects;
    }

    /** `handleSubmit`: validate the form, then replace the edited project or
        append a new one whose PV number is not taken yet. */
    method Submit(form: Project, editing: Option<Project>) returns (outcome: Outcome<SubmitError>)
      modifies this
      ensures !RequiredFilled(form) ==> outcome == Fail(MissingRequiredField) && projects == old(projects)
      ensures RequiredFilled(form) && editing.Some? ==>
        outcome == Pass && projects == Edited(old(projects), editing.value.pvNumber, form)
      ensures RequiredFilled(form) && editing.None? && (exists p :: p in old(projects) && p.pvNumber == form.pvNumber) ==>
        outcome == Fail(DuplicatePvNumber) && projects == old(projects)
      ensures RequiredFilled(form) && editing.None? && (forall p :: p in old(projects) ==> p.pvNumber != form.pvNumber) ==>
        outcome == Pass && projects == old(projects) + [form]
      ensures PvNumbersUnique(old(projects)) && (editing.Some? ==> form.pvNumber == editing.value.pvNumber) ==>
        PvNumbersUnique(projects)
    {
      if form.pvNumber == "" || form.name == "" || form.oracleAccount == "" {
        return Fail(MissingRequiredField);
      }
      if editing.Some? {
        if PvNumbersUnique(projects) && form.pvNumber == editing.value.pvNumber {
          EditedKeepsPvNumbersUnique(projects, editing.value.pvNumber, form);
        }
        projects := Edited(projects, editing.value.pvNumber, form);
      } else {
        var taken := Seqs.Find(projects, (p: Project) => p.pvNumber == form.pvNumber);
        if taken.Some? {
          return Fail(DuplicatePvNumber);
        }
        projects := projects + [form];
      }
      outcome := Pass;
    }

    /** `handleDelete`. */
    method Delete(pvNumber: string)
      modifies this
      ensures projects == Without(old(projects), pvNumber)
      ensures forall p :: p in projects ==> p.pvNumber != pvNumber
      ensures PvNumbersUnique(old(projects)) ==> PvNumbersUnique(projects)
    {
      if PvNumbersUnique(projects) {
        WithoutKeepsPvNumbersUnique(projects, pvNumber);
      }
      projects := Without(projects, pvNumber);
    }
  }
}
