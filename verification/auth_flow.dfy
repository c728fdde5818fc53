/**
  The simulated sign-in flow: contact entry (`login`), code entry (`otp`) and
  account-type choice (`userType`). Handlers are pure transitions on the
  flow's state that also return the effects they emit: notification toasts,
  the success callback with the chosen account type, and the back-to-home
  callback.
 */
module AuthFlow {

  datatype AuthStep = Login | Otp | UserType

  datatype LoginMethod = Email | Phone

  /** The account types offered on the last step. */
  datatype Role = Student | Teacher

  /** The flow's four pieces of state. `contactInfo` is shared by the email and phone tabs. */
  datatype AuthState = AuthState(step: AuthStep, loginMethod: LoginMethod, contactInfo: string, otp: string)

  /** The toasts the flow shows, by title. */
  datatype Notice =
    | MissingInformation(loginMethod: LoginMethod)
    | OtpSent(loginMethod: LoginMethod)
    | InvalidOtp
    | OtpVerified
    | Welcome(role: Role)
    | GoogleAuthNotice

  datatype Effect = Toast(notice: Notice) | AuthSuccess(role: Role) | BackToHome

  /** A transition's outcome: the next state and the effects emitted, in order. */
  datatype Outcome = Outcome(state: AuthState, effects: seq<Effect>)

  /** Required length of the one-time code; the input also accepts no more than this. */
  const OtpLength: nat := 6

  function Initial(): (st: AuthState)
    ensures st.step == Login && st.loginMethod == Email && st.contactInfo == [] && st.otp == []
  {
    AuthState(Login, Email, "", "")
  }

  /** `handleSendOTP`: with contact details, move to code entry; without, stay and warn. */
  function SendOtp(st: AuthState): (r: Outcome)
    ensures st.contactInfo == [] ==> r.state == st && r.effects == [Toast(MissingInformation(st.loginMethod))]
    ensures st.contactInfo != [] ==> r.state == st.(step := Otp) && r.effects == [Toast(OtpSent(st.loginMethod))]
  {
    if st.contactInfo == [] then Outcome(st, [Toast(MissingInformation(st.loginMethod))])
    else Outcome(st.(step := Otp), [Toast(OtpSent(st.loginMethod))])
  }

  /** `handleVerifyOTP`: any code of exactly six characters is accepted; its content is never checked. */
  function VerifyOtp(st: AuthState): (r: Outcome)
    ensures |st.otp| != OtpLength ==> r.state == st && r.effects == [Toast(InvalidOtp)]
    ensures |st.otp| == OtpLength ==> r.state == st.(step := UserType) && r.effects == [Toast(OtpVerified)]
  {
    if st.otp == [] || |st.otp| != OtpLength then Outcome(st, [Toast(InvalidOtp)])
    else Outcome(st.(step := UserType), [Toast(OtpVerified)])
  }

  /** `handleGoogleAuth`: go straight to the account-type step, asking for nothing. */
  function GoogleAuth(st: AuthState): (r: Outcome)
    ensures r.state == st.(step := UserType)
    ensures r.effects == [Toast(GoogleAuthNotice)]
  {
    Outcome(st.(step := UserType), [Toast(GoogleAuthNotice)])
  }

  /** `handleUserTypeSelect`: report the chosen type to the parent; the step does not change. */
  function SelectUserType(st: AuthState, role: Role): (r: Outcome)
    ensures r.state == st
    ensures AuthSuccess(role) in r.effects
    ensures forall i :: 0 <= i < |r.effects| && r.effects[i].AuthSuccess? ==> r.effects[i].role == role
  {
    Outcome(st, [Toast(Welcome(role)), AuthSuccess(role)])
  }

  /** One user action on the sign-in screens. */
  datatype Event =
    | ChooseMethod(loginMethod: LoginMethod)
    | TypeContact(value: string)
    | TypeOtp(value: string)
    | SubmitContact
    | SubmitOtp
    | Google
    | ChooseRole(role: Role)
    | BackToLogin
    | Back

  /** The code input's `maxLength`: whatever is typed or pasted, at most six characters are kept. */
  function OtpInput(value: string): (r: string)
    ensures |r| <= OtpLength && r <= value
    ensures |value| <= OtpLength ==> r == value
  {
    if |value| <= OtpLength then value else value[..OtpLength]
  }

  function Step(st: AuthState, ev: Event): Outcome {
    match ev
    case ChooseMethod(m) => Outcome(st.(loginMethod := m), [])
    case TypeContact(v) => Outcome(st.(contactInfo := v), [])
    case TypeOtp(v) => Outcome(st.(otp := OtpInput(v)), [])
    case SubmitContact => SendOtp(st)
    case SubmitOtp => VerifyOtp(st)
    case Google => GoogleAuth(st)
    case ChooseRole(role) => SelectUserType(st, role)
    case BackToLogin => Outcome(st.(step := Login), [])
    case Back => Outcome(st, [BackToHome])
  }

  /** The controls each step renders. */
  predicate Enabled(st: AuthState, ev: Event) {
    match st.step
    case Login => ev.ChooseMethod? || ev.TypeContact? || ev.SubmitContact? || ev.Google? || ev.Back?
    case Otp => ev.TypeOtp? || ev.SubmitOtp? || ev.BackToLogin?
    case UserType => ev.ChooseRole? || ev.BackToLogin?
  }

  /** On the login step, sending moves to code entry exactly when contact details were entered. */
  lemma SendOtpGuard(st: AuthState)
    requires st.step == Login
    ensures SendOtp(st).state.step == Otp <==> st.contactInfo != []
    ensures SendOtp(st).state.step == Login <==> st.contactInfo == []
  {
  }

  /** On the code step, verifying moves on exactly when the code has six characters. */
  lemma VerifyOtpGuard(st: AuthState)
    requires st.step == Otp
    ensures VerifyOtp(st).state.step == UserType <==> |st.otp| == OtpLength
    ensures VerifyOtp(st).state.step == Otp <==> |st.otp| != OtpLength
  {
  }

  /** Switching between the email and phone tabs keeps what was typed. */
  lemma MethodSwitchKeepsContact(st: AuthState, m: LoginMethod)
    ensures Step(st, ChooseMethod(m)).state.contactInfo == st.contactInfo
    ensures Step(st, ChooseMethod(m)).state.step == st.step
  {
  }

  /** "Back to Login" from code entry or account-type choice returns to contact entry. */
  lemma BackToLoginReturnsToLogin(st: AuthState)
    requires Enabled(st, BackToLogin)
    ensures st.step == Otp || st.step == UserType
    ensures Step(st, BackToLogin).state.step == Login
  {
  }

  /** Two six-character codes lead to the same step: verification ignores the code's content. */
  lemma VerifyIgnoresContent(st: AuthState, a: string, b: string)
    requires |a| == OtpLength && |b| == OtpLength
    ensures VerifyOtp(st.(otp := a)).state.step == VerifyOtp(st.(otp := b)).state.step == UserType
  {
  }

  /**
    The flow's invariant: on the code step the contact details are non-empty,
    and the stored code is never longer than six characters.
   */
  predicate Inv(st: AuthState) {
    (st.step == Otp ==> st.contactInfo != []) && |st.otp| <= OtpLength
  }

  lemma StepPreservesInv(st: AuthState, ev: Event)
    requires Inv(st) && Enabled(st, ev)
    ensures Inv(Step(st, ev).state)
  {
  }

  /** The success callback is emitted only on the account-type step, and only by choosing a role. */
  lemma SuccessOnlyFromRoleChoice(st: AuthState, ev: Event, role: Role)
    requires Enabled(st, ev)
    requires AuthSuccess(role) in Step(st, ev).effects
    ensures st.step == UserType && ev == ChooseRole(role)
  {
  }

  predicate RunEnabled(st: AuthState, evs: seq<Event>)
    decreases |evs|
  {
    |evs| == 0 || (Enabled(st, evs[0]) && RunEnabled(Step(st, evs[0]).state, evs[1..]))
  }

  function Run(st: AuthState, evs: seq<Event>): AuthState
    decreases |evs|
  {
    if |evs| == 0 then st else Run(Step(st, evs[0]).state, evs[1..])
  }

  /** Every run of offered actions from the initial state keeps the invariant. */
  lemma {:induction false} RunPreservesInv(st: AuthState, evs: seq<Event>)
    requires Inv(st) && RunEnabled(st, evs)
    ensures Inv(Run(st, evs))
    decreases |evs|
  {
    if |evs| > 0 {
      StepPreservesInv(st, evs[0]);
      RunPreservesInv(Step(st, evs[0]).state, evs[1..]);
    }
  }

  /**
    The code step is reached only through a successful send: a run from the
    login step that ends on the code step contains a contact submission.
   */
  lemma {:induction false} OtpReachedOnlyBySend(st: AuthState, evs: seq<Event>)
    requires st.step == Login && RunEnabled(st, evs)
    requires Run(st, evs).step == Otp
    ensures SubmitContact in evs
    decreases |evs|
  {
    if |evs| > 0 {
      var next := Step(st, evs[0]).state;
      if evs[0] != SubmitContact {
        assert next.step != Otp;
        if next.step == Login {
          OtpReachedOnlyBySend(next, evs[1..]);
        } else {
          assert next.step == UserType;
          OtpUnreachableFromUserType(next, evs[1..]);
        }
      }
    }
  }

  /**
    From the account-type step the code step is reachable only by going back to
    login first: the run holds a contact submission preceded by "Back to Login".
   */
  lemma {:induction false} OtpUnreachableFromUserType(st: AuthState, evs: seq<Event>)
    requires st.step == UserType && RunEnabled(st, evs)
    requires Run(st, evs).step == Otp
    ensures SubmitContact in evs
    ensures exists k :: 0 <= k < |evs| && evs[k] == SubmitContact && BackToLogin in evs[..k]
    decreases |evs|
  {
    if |evs| > 0 {
      var next := Step(st, evs[0]).state;
      if next.step == UserType {
        OtpUnreachableFromUserType(next, evs[1..]);
        var k :| 0 <= k < |evs[1..]| && evs[1..][k] == SubmitContact && BackToLogin in evs[1..][..k];
        assert evs[1..][..k] == evs[1..k + 1];
        assert BackToLogin in evs[..k + 1] by {
          assert evs[..k + 1] == [evs[0]] + evs[1..k + 1];
        }
        assert evs[k + 1] == SubmitContact;
      } else {
        assert next.step == Login && evs[0] == BackToLogin;
        OtpReachedOnlyBySend(next, evs[1..]);
        var k :| 0 <= k < |evs[1..]| && evs[1..][k] == SubmitContact;
        assert evs[..k + 1][0] == BackToLogin;
        assert evs[k + 1] == SubmitContact;
      }
    }
  }
}
