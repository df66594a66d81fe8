/** The patient and template dropdowns: a selected value is looked up by id in the loaded list. */
module Selection {
  import opened Wrappers
  import opened TemplateFormat

  /** A patient as the patient table returns it; only the fields the session reads. */
  datatype Patient = Patient(id: string, name: string, nameKana: string)

  /** `find` by id, as the position of the first id in the list equal to `id`. */
  function FirstWithId(ids: seq<string>, id: string): (r: Option<nat>)
    ensures r.Some? ==> r.value < |ids| && ids[r.value] == id
    ensures r.Some? ==> forall j :: 0 <= j < r.value ==> ids[j] != id
    ensures r.None? ==> forall j :: 0 <= j < |ids| ==> ids[j] != id
    decreases |ids|
  {
    if ids == [] then None
    else if ids[0] == id then Some(0)
    else match FirstWithId(ids[1..], id)
      case None => None
      case Some(k) => Some(k + 1)
  }

  /** The ids of a list, in order. */
  function Ids<T>(xs: seq<T>, id: T -> string): (ids: seq<string>)
    ensures |ids| == |xs| && forall i :: 0 <= i < |xs| ==> ids[i] == id(xs[i])
  {
    seq(|xs|, i requires 0 <= i < |xs| => id(xs[i]))
  }

  /** handlePatientChange: no selection for the empty value, else the first patient with that id. */
  function PatientForValue(roster: seq<Patient>, value: string): (r: Option<Patient>)
    ensures value == "" ==> r == None
    ensures r.Some? ==> r.value in roster && r.value.id == value
    ensures r.None? && value != "" ==> forall j :: 0 <= j < |roster| ==> roster[j].id != value
    ensures r.Some? ==>
      exists k :: 0 <= k < |roster| && roster[k] == r.value && forall j :: 0 <= j < k ==> roster[j].id != value
  {
    if value == "" then None
    else match FirstWithId(Ids(roster, (p: Patient) => p.id), value)
      case None => None
      case Some(k) => Some(roster[k])
  }

  predicate DistinctPatientIds(roster: seq<Patient>)
  {
    forall i, j :: 0 <= i < j < |roster| ==> roster[i].id != roster[j].id
  }

  /** With distinct ids, choosing a roster entry by its id selects that very entry. */
  lemma {:induction false} SelectingEntrySelectsIt(roster: seq<Patient>, k: nat)
    requires k < |roster| && DistinctPatientIds(roster) && roster[k].id != ""
    ensures PatientForValue(roster, roster[k].id) == Some(roster[k])
  {
    var f := FirstWithId(Ids(roster, (p: Patient) => p.id), roster[k].id);
    assert f.Some?;
    assert f.value == k;
  }

  /** handleTemplateChange: no template for the empty value, else the first template with that id. */
  function TemplateForValue(templates: seq<Template>, value: string): (r: Option<Template>)
    ensures value == "" ==> r == None
    ensures r.Some? ==> r.value in templates && r.value.id == value
    ensures r.None? && value != "" ==> forall j :: 0 <= j < |templates| ==> templates[j].id != value
    ensures r.Some? ==>
      exists k :: 0 <= k < |templates| && templates[k] == r.value && forall j :: 0 <= j < k ==> templates[j].id != value
  {
    if value == "" then None
    else match FirstWithId(Ids(templates, (t: Template) => t.id), value)
      case None => None
      case Some(k) => Some(templates[k])
  }
}
