/**
  The student registration form as a state machine: the directory loaded on
  mount, the visible search results and the form fields. Each handler is a
  pure function from the component state to the next state, composing its
  state updates in source order; toasts are left to the submit outcome.
 */
module StudentRegistration {
  import opened Wrappers
  import opened Seqs
  import opened SchoolData

  datatype StudentFormData = StudentFormData(
    firstName: string,
    lastName: string,
    grade: string,
    school: string,
    dob: string,
    state: string,
    medium: string,
    district: string,
    udiseCode: string)

  /** Component state: the directory, the search results on display, and the form. */
  datatype Registration = Registration(
    schools: seq<School>,
    searchResults: seq<School>,
    form: StudentFormData)

  /** Shortest UDISE-field entry that triggers a directory search. */
  const SearchMinLength: nat := 3

  /** Length of a full UDISE code; an entry this long triggers the exact lookup. */
  const UdiseCodeLength: nat := 11

  /** The options the Grade, State and Medium selectors offer. */
  const Grades: seq<string> := ["6", "7", "8", "9", "10", "11", "12"]
  const States: seq<string> := ["Odisha", "Andhra Pradesh", "Bihar", "Chhattisgarh", "Jharkhand", "Madhya Pradesh", "Other"]
  const Mediums: seq<string> := ["English", "Hindi", "Odia", "Telugu", "Other"]

  /** The form as the component first renders it. */
  function InitialForm(): (f: StudentFormData)
    ensures f.state == "Odisha" && f.medium == "English"
    ensures f.firstName == [] && f.lastName == [] && f.grade == [] && f.school == []
    ensures f.dob == [] && f.district == [] && f.udiseCode == []
    ensures f.state in States && f.medium in Mediums
  {
    StudentFormData("", "", "", "", "", "Odisha", "English", "", "")
  }

  /** State on mount, before the registry file has been read. */
  function Mount(): (r: Registration)
    ensures r.schools == [] && r.searchResults == [] && r.form == InitialForm()
  {
    Registration([], [], InitialForm())
  }

  /**
    Completion of the asynchronous load: `fetched` is the response body, or
    `None` when fetching or reading it failed, in which case the directory
    stays empty.
   */
  function SchoolsLoaded(st: Registration, fetched: Option<string>): (r: Registration)
    ensures r.form == st.form && r.searchResults == st.searchResults
    ensures fetched.None? ==> r.schools == st.schools
    ensures fetched.Some? ==> r.schools == ParseSchoolsCSV(fetched.value)
    ensures fetched.Some? ==> forall i :: 0 <= i < |r.schools| ==> HasCode(r.schools[i])
  {
    match fetched
    case Some(text) => st.(schools := ParseSchoolsCSV(text))
    case None => st
  }

  /** The fields other than school, district and UDISE code agree. */
  predicate SameStudentFields(a: StudentFormData, b: StudentFormData) {
    && a.firstName == b.firstName && a.lastName == b.lastName && a.grade == b.grade
    && a.dob == b.dob && a.state == b.state && a.medium == b.medium
  }

  /** The typed entry is a full-length code that some directory record carries. */
  predicate AutoFillApplies(schools: seq<School>, query: string) {
    |query| == UdiseCodeLength && exists i :: 0 <= i < |schools| && schools[i].udiseCode == query
  }

  /**
    `handleUDISESearch`: record the entry, refresh the search results from three
    characters on, and at exactly eleven characters auto-fill school and district
    from the record with that code, clearing the results.
   */
  function HandleUDISESearch(st: Registration, query: string): (r: Registration)
    ensures r.form.udiseCode == query
    ensures r.schools == st.schools && SameStudentFields(r.form, st.form)
    ensures |query| < SearchMinLength || st.schools == [] ==> r.searchResults == []
    ensures AutoFillApplies(st.schools, query) ==>
      && r.searchResults == []
      && exists i :: 0 <= i < |st.schools| && st.schools[i].udiseCode == query
           && r.form.school == st.schools[i].schoolName && r.form.district == st.schools[i].district
    ensures !AutoFillApplies(st.schools, query) ==>
      && r.form.school == st.form.school && r.form.district == st.form.district
      && r.searchResults == (if |query| >= SearchMinLength && |st.schools| > 0 then SearchSchools(st.schools, query) else [])
  {
    var form := st.form.(udiseCode := query);
    var results := if |query| >= SearchMinLength && |st.schools| > 0 then SearchSchools(st.schools, query) else [];
    if |query| == UdiseCodeLength then
      match GetSchoolByUDISE(st.schools, query)
      case Some(s) =>
        Registration(st.schools, [], form.(school := s.schoolName, district := s.district, udiseCode := s.udiseCode))
      case None => Registration(st.schools, results, form)
    else
      Registration(st.schools, results, form)
  }

  /** Auto-fill copies the earliest record carrying the typed code. */
  lemma AutoFillTakesFirstMatch(st: Registration, query: string, i: nat)
    requires |query| == UdiseCodeLength
    requires i < |st.schools| && st.schools[i].udiseCode == query
    requires forall j :: 0 <= j < i ==> st.schools[j].udiseCode != query
    ensures HandleUDISESearch(st, query).form
      == st.form.(school := st.schools[i].schoolName, district := st.schools[i].district, udiseCode := query)
  {
    LookupReturnsFirst(st.schools, query, i);
  }

  /** `handleSchoolSelect`: copy school, district and code from the chosen record and clear the results. */
  function HandleSchoolSelect(st: Registration, s: School): (r: Registration)
    ensures r.form.school == s.schoolName && r.form.district == s.district && r.form.udiseCode == s.udiseCode
    ensures r.searchResults == [] && r.schools == st.schools
    ensures SameStudentFields(r.form, st.form)
  {
    Registration(st.schools, [], st.form.(school := s.schoolName, district := s.district, udiseCode := s.udiseCode))
  }

  /** The inputs edited directly through their own change handlers. */
  datatype FormField = FirstName | LastName | Grade | Dob | SchoolName | District | State | Medium

  /** The value an input shows. */
  function Get(f: StudentFormData, field: FormField): string {
    match field
    case FirstName => f.firstName
    case LastName => f.lastName
    case Grade => f.grade
    case Dob => f.dob
    case SchoolName => f.school
    case District => f.district
    case State => f.state
    case Medium => f.medium
  }

  /** The form after one input's change handler stores `value`. */
  function SetField(f: StudentFormData, field: FormField, value: string): (r: StudentFormData)
    ensures Get(r, field) == value
    ensures forall g :: g != field ==> Get(r, g) == Get(f, g)
    ensures r.udiseCode == f.udiseCode
    ensures field != SchoolName ==> r.school == f.school
    ensures field != District ==> r.district == f.district
  {
    match field
    case FirstName => f.(firstName := value)
    case LastName => f.(lastName := value)
    case Grade => f.(grade := value)
    case Dob => f.(dob := value)
    case SchoolName => f.(school := value)
    case District => f.(district := value)
    case State => f.(state := value)
    case Medium => f.(medium := value)
  }

  /**
    Whether the rendered form lets the user make this edit: selectors only offer
    their listed options, and the School Name and District inputs are read-only
    once they hold a value.
   */
  predicate EditEnabled(f: StudentFormData, field: FormField, value: string) {
    match field
    case Grade => value in Grades
    case State => value in States
    case Medium => value in Mediums
    case SchoolName => f.school == []
    case District => f.district == []
    case _ => true
  }

  /** The two ways a submit ends: the missing-information toast, or completion with the form. */
  datatype SubmitOutcome = MissingInformation | Completed(data: StudentFormData)

  /** `handleSubmit`: complete with the form only when all five required fields are filled. */
  function HandleSubmit(f: StudentFormData): (r: SubmitOutcome)
    ensures r.Completed? <==> f.firstName != [] && f.lastName != [] && f.grade != [] && f.dob != [] && f.udiseCode != []
    ensures r.Completed? ==> r.data == f
  {
    if f.firstName == [] || f.lastName == [] || f.grade == [] || f.dob == [] || f.udiseCode == [] then
      MissingInformation
    else
      Completed(f)
  }

  /** School, district, state and medium play no part in whether a submit completes. */
  lemma SubmitIgnoresOptionalFields(f: StudentFormData, school: string, district: string, state: string, medium: string)
    ensures HandleSubmit(f.(school := school, district := district, state := state, medium := medium)).Completed?
      == HandleSubmit(f).Completed?
  {
  }

  /** The untouched form cannot be submitted. */
  lemma InitialFormRejected()
    ensures HandleSubmit(InitialForm()) == MissingInformation
  {
  }

  /** A non-empty UDISE entry satisfies the code requirement of submit, whatever the directory holds. */
  lemma TypedCodeSatisfiesSubmit(st: Registration, query: string)
    requires query != []
    requires st.form.firstName != [] && st.form.lastName != [] && st.form.grade != [] && st.form.dob != []
    ensures HandleSubmit(HandleUDISESearch(st, query).form) == Completed(HandleUDISESearch(st, query).form)
  {
  }

  /** One user or loader event on the registration screen. */
  datatype Event =
    | TypeUdise(query: string)
    | SelectSchool(school: School)
    | Edit(field: FormField, value: string)
    | Loaded(fetched: Option<string>)

  /** Events the rendered screen can deliver in this state. */
  predicate Enabled(st: Registration, ev: Event) {
    match ev
    case TypeUdise(_) => true
    case SelectSchool(s) => s in st.searchResults
    case Edit(field, value) => EditEnabled(st.form, field, value)
    case Loaded(_) => st.schools == []
  }

  function Step(st: Registration, ev: Event): Registration {
    match ev
    case TypeUdise(q) => HandleUDISESearch(st, q)
    case SelectSchool(s) => HandleSchoolSelect(st, s)
    case Edit(field, value) => st.(form := SetField(st.form, field, value))
    case Loaded(fetched) => SchoolsLoaded(st, fetched)
  }

  /**
    The state invariant: the results on display are at most ten directory
    records in directory order, and every directory record has a code.
   */
  ghost predicate Inv(st: Registration) {
    && |st.searchResults| <= MaxResults
    && IsSubsequence(st.searchResults, st.schools)
    && (forall i :: 0 <= i < |st.schools| ==> HasCode(st.schools[i]))
  }

  /** Every event the screen offers keeps the invariant. */
  lemma StepPreservesInv(st: Registration, ev: Event)
    requires Inv(st) && Enabled(st, ev)
    ensures Inv(Step(st, ev))
  {
    match ev
    case TypeUdise(q) =>
    case SelectSchool(s) =>
    case Edit(field, value) =>
    case Loaded(fetched) =>
      assert st.searchResults == [];
  }

  /** The state after delivering `evs` in order, each one enabled. */
  function Run(st: Registration, evs: seq<Event>): (r: Registration)
    requires RunEnabled(st, evs)
    decreases |evs|
  {
    if |evs| == 0 then st else Run(Step(st, evs[0]), evs[1..])
  }

  predicate RunEnabled(st: Registration, evs: seq<Event>)
    decreases |evs|
  {
    |evs| == 0 || (Enabled(st, evs[0]) && RunEnabled(Step(st, evs[0]), evs[1..]))
  }

  /** From mount, every run of offered events keeps the invariant. */
  lemma {:induction false} RunPreservesInv(st: Registration, evs: seq<Event>)
    requires Inv(st) && RunEnabled(st, evs)
    ensures Inv(Run(st, evs))
    decreases |evs|
  {
    if |evs| > 0 {
      StepPreservesInv(st, evs[0]);
      RunPreservesInv(Step(st, evs[0]), evs[1..]);
    }
  }

  /** The mounted component satisfies the invariant. */
  lemma MountSatisfiesInv()
    ensures Inv(Mount())
  {
  }

  /** School, district and code on the form come together from one directory record. */
  predicate FormFromDirectory(st: Registration) {
    exists i :: 0 <= i < |st.schools| && st.schools[i].schoolName == st.form.school
      && st.schools[i].district == st.form.district && st.schools[i].udiseCode == st.form.udiseCode
  }

  /** Choosing a result or auto-filling from a full code leaves the form consistent with the directory. */
  lemma FillingComesFromDirectory(st: Registration, ev: Event)
    requires Inv(st) && Enabled(st, ev)
    requires ev.SelectSchool? || (ev.TypeUdise? && AutoFillApplies(st.schools, ev.query))
    ensures FormFromDirectory(Step(st, ev))
  {
    if ev.SelectSchool? {
      var k :| 0 <= k < |st.searchResults| && st.searchResults[k] == ev.school;
      SubsequenceMembers(st.searchResults, st.schools, k);
      var i :| 0 <= i < |st.schools| && st.schools[i] == ev.school;
      assert Step(st, ev).form.school == st.schools[i].schoolName;
    }
  }
}
