/**
  The page-level router: which screen is shown (home, sign-in, registration,
  dashboard), which account type was chosen, and the submitted registration.
  Handlers are pure transitions that also return the notices they emit.
 */
module IndexPage {
  import opened Wrappers
  import AuthFlow
  import StudentRegistration

  datatype Screen = Home | Auth | RegistrationScreen | Dashboard

  datatype AppState = AppState(current: Screen, userType: Option<AuthFlow.Role>, studentData: Option<StudentRegistration.StudentFormData>)

  /** The toasts the router shows. */
  datatype Notice = TeacherDashboardSoon | GradeSelected(grade: string)

  datatype Outcome = Outcome(state: AppState, notices: seq<Notice>)

  /** Name shown on the dashboard when no registration has been recorded. */
  const DefaultUserName: string := "Student"

  function Initial(): (st: AppState)
    ensures st.current == Home && st.userType == None && st.studentData == None
  {
    AppState(Home, None, None)
  }

  /** `handleGetStarted`: open the sign-in flow. */
  function GetStarted(st: AppState): (r: AppState)
    ensures r.current == Auth
    ensures r.userType == st.userType && r.studentData == st.studentData
  {
    st.(current := Auth)
  }

  /** `handleAuthSuccess`: remember the role; students go on to registration, teachers stay and are told to wait. */
  function AuthSucceeded(st: AppState, role: AuthFlow.Role): (r: Outcome)
    ensures r.state.userType == Some(role) && r.state.studentData == st.studentData
    ensures role == AuthFlow.Student ==> r.state.current == RegistrationScreen && r.notices == []
    ensures role == AuthFlow.Teacher ==> r.state.current == st.current && r.notices == [TeacherDashboardSoon]
  {
    var s := st.(userType := Some(role));
    if role == AuthFlow.Student then Outcome(s.(current := RegistrationScreen), [])
    else Outcome(s, [TeacherDashboardSoon])
  }

  /** `handleRegistrationComplete`: keep the submitted form and show the dashboard. */
  function RegistrationComplete(st: AppState, data: StudentRegistration.StudentFormData): (r: AppState)
    ensures r.studentData == Some(data) && r.current == Dashboard && r.userType == st.userType
  {
    st.(studentData := Some(data)).(current := Dashboard)
  }

  /** `handleGradeSelect`: a notice only; no state changes. */
  function GradeSelect(st: AppState, grade: string): (r: Outcome)
    ensures r.state == st
    ensures r.notices == [GradeSelected(grade)]
  {
    Outcome(st, [GradeSelected(grade)])
  }

  /** `handleBackToHome`: reset all three pieces of state. */
  function BackToHome(st: AppState): (r: AppState)
    ensures r == Initial()
  {
    st.(current := Home).(userType := None).(studentData := None)
  }

  /** Going home twice is the same as going home once. */
  lemma BackToHomeIdempotent(st: AppState)
    ensures BackToHome(BackToHome(st)) == BackToHome(st)
  {
  }

  /** The name the dashboard greets: first and last name joined by a space, or the default. */
  function UserName(st: AppState): (r: string)
    ensures st.studentData.None? ==> r == DefaultUserName
    ensures st.studentData.Some? ==>
      && |r| == |st.studentData.value.firstName| + 1 + |st.studentData.value.lastName|
      && r[..|st.studentData.value.firstName|] == st.studentData.value.firstName
      && r[|st.studentData.value.firstName|] == ' '
      && r[|st.studentData.value.firstName| + 1..] == st.studentData.value.lastName
  {
    match st.studentData
    case Some(d) => d.firstName + " " + d.lastName
    case None => DefaultUserName
  }

  /** Events delivered to the router by its screens. */
  datatype Event =
    | StartClicked
    | AuthSuccessReceived(role: AuthFlow.Role)
    | RegistrationCompleted(data: StudentRegistration.StudentFormData)
    | GradeClicked(grade: string)
    | BackClicked

  /**
    The callbacks each screen wires up: get-started only on home; auth success
    and back on sign-in; completion (after a successful submit) and back on
    registration; grade choice on the dashboard.
   */
  predicate Enabled(st: AppState, ev: Event) {
    match ev
    case StartClicked => st.current == Home
    case AuthSuccessReceived(_) => st.current == Auth
    case RegistrationCompleted(d) => st.current == RegistrationScreen && StudentRegistration.HandleSubmit(d) == StudentRegistration.Completed(d)
    case GradeClicked(_) => st.current == Dashboard
    case BackClicked => st.current == Auth || st.current == RegistrationScreen
  }

  function Step(st: AppState, ev: Event): Outcome {
    match ev
    case StartClicked => Outcome(GetStarted(st), [])
    case AuthSuccessReceived(role) => AuthSucceeded(st, role)
    case RegistrationCompleted(d) => Outcome(RegistrationComplete(st, d), [])
    case GradeClicked(g) => GradeSelect(st, g)
    case BackClicked => Outcome(BackToHome(st), [])
  }

  /** Required fields of a submitted registration are all filled. */
  predicate Submitted(d: StudentRegistration.StudentFormData) {
    d.firstName != [] && d.lastName != [] && d.grade != [] && d.dob != [] && d.udiseCode != []
  }

  /**
    The router's invariant: home and sign-in hold no registration; home holds no
    role; registration belongs to a student; the dashboard holds a student's
    submitted registration.
   */
  predicate Inv(st: AppState) {
    && (st.current == Home ==> st.userType.None? && st.studentData.None?)
    && (st.current == Auth ==> st.studentData.None?)
    && (st.current == RegistrationScreen ==> st.userType == Some(AuthFlow.Student) && st.studentData.None?)
    && (st.current == Dashboard ==> st.userType == Some(AuthFlow.Student) && st.studentData.Some? && Submitted(st.studentData.value))
  }

  lemma StepPreservesInv(st: AppState, ev: Event)
    requires Inv(st) && Enabled(st, ev)
    ensures Inv(Step(st, ev).state)
  {
  }

  predicate RunEnabled(st: AppState, evs: seq<Event>)
    decreases |evs|
  {
    |evs| == 0 || (Enabled(st, evs[0]) && RunEnabled(Step(st, evs[0]).state, evs[1..]))
  }

  function Run(st: AppState, evs: seq<Event>): AppState
    decreases |evs|
  {
    if |evs| == 0 then st else Run(Step(st, evs[0]).state, evs[1..])
  }

  lemma {:induction false} RunPreservesInv(st: AppState, evs: seq<Event>)
    requires Inv(st) && RunEnabled(st, evs)
    ensures Inv(Run(st, evs))
    decreases |evs|
  {
    if |evs| > 0 {
      StepPreservesInv(st, evs[0]);
      RunPreservesInv(Step(st, evs[0]).state, evs[1..]);
    }
  }

  /**
    On any reachable dashboard the greeting is the student's own name, never the
    default: the first name, a space, then the last name, both non-empty.
   */
  lemma DashboardGreetsStudent(evs: seq<Event>)
    requires RunEnabled(Initial(), evs)
    requires Run(Initial(), evs).current == Dashboard
    ensures var st := Run(Initial(), evs);
      && st.studentData.Some?
      && UserName(st) == st.studentData.value.firstName + " " + st.studentData.value.lastName
      && UserName(st) != DefaultUserName
  {
    RunPreservesInv(Initial(), evs);
  }
}
