/**
 * The top-level screen routing: which screen the app shows after the
 * session is restored, after a login, and on each screen's events.
 */
module App {
  import opened Wrappers
  import opened Js
  import Session

  datatype Step = Splash | LoginScreen | Onboarding | QuizScreen | QuizResult | MainScreen

  /** The app's state; `loading` is true until the session check has finished. */
  datatype AppState<X, C> = AppState(step: Step, user: Option<Session.ClientUser<X>>, quizResult: Option<C>, loading: bool)

  function Start<X, C>(): AppState<X, C> {
    AppState(Splash, None, None, true)
  }

  /** A user without a birth date or a gender has not finished onboarding. */
  predicate NeedsOnboarding<X>(u: Session.ClientUser<X>) {
    !NonEmpty(u.birthDate) || !NonEmpty(u.server.gender)
  }

  /**
   * `result && result.cluster`, where `latest` is the latest-result answer:
   * `None` for no result, and a result whose cluster may be missing.
   */
  predicate HasCluster<C>(latest: Option<Option<C>>) {
    latest.Some? && latest.value.Some?
  }

  /** Where a signed-in user goes once the latest result is known. */
  function Route<X, C>(u: Session.ClientUser<X>, latest: Option<Option<C>>): (s: Step)
    ensures s == MainScreen <==> !NeedsOnboarding(u) && HasCluster(latest)
    ensures s != MainScreen ==> s == Onboarding
  {
    if NeedsOnboarding(u) then Onboarding
    else if HasCluster(latest) then MainScreen
    else Onboarding
  }

  /**
   * `initializeUser`: `restored` is what the session restore returned, and
   * `latest` the latest-result request's answer, `Failure` when it threw
   * (only asked for a user who has finished onboarding). No user, or a
   * request that threw, leads to the splash screen.
   */
  function Initialize<X, C>(restored: Option<Session.ClientUser<X>>, latest: Result<Option<Option<C>>, string>): (r: AppState<X, C>)
    ensures !r.loading && r.quizResult.None? && r.user == restored
    ensures restored.None? ==> r.step == Splash
    ensures restored.Some? && NeedsOnboarding(restored.value) ==> r.step == Onboarding
    ensures restored.Some? && !NeedsOnboarding(restored.value) ==>
      r.step == (if latest.Failure? then Splash else Route(restored.value, latest.value))
  {
    match restored
    case None => AppState(Splash, None, None, false)
    case Some(u) =>
      var step :=
        if NeedsOnboarding(u) then Onboarding
        else match latest
          case Failure(_) => Splash
          case Success(l) => Route(u, l);
      AppState(step, Some(u), None, false)
  }

  /**
   * `handleLoginSuccess`: the same routing as the restore. A latest-result
   * request that throws is not caught here, so the step stays as it was.
   */
  function LoginSuccess<X, C>(app: AppState<X, C>, u: Session.ClientUser<X>, latest: Result<Option<Option<C>>, string>): (r: AppState<X, C>)
    ensures r.user == Some(u) && r.quizResult == app.quizResult && r.loading == app.loading
    ensures NeedsOnboarding(u) ==> r.step == Onboarding
    ensures !NeedsOnboarding(u) && latest.Failure? ==> r.step == app.step
    ensures !NeedsOnboarding(u) && latest.Success? ==> r.step == Route(u, latest.value)
  {
    if NeedsOnboarding(u) then app.(user := Some(u), step := Onboarding)
    else match latest
      case Failure(_) => app.(user := Some(u))
      case Success(l) => app.(user := Some(u), step := Route(u, l))
  }

  /** A restored session and a fresh login send the same user to the same screen. */
  lemma RestoreAndLoginAgree<X, C>(app: AppState<X, C>, u: Session.ClientUser<X>, latest: Option<Option<C>>)
    ensures Initialize(Some(u), Success(latest)).step == LoginSuccess(app, u, Success(latest)).step
    ensures Initialize(Some(u), Success(latest)).step in {Onboarding, MainScreen}
  {
  }

  /** The events the screens raise. */
  datatype Event<X, C> =
    | Started | BackToSplash | OnboardingDone | QuizStarted | QuizDone(cluster: C) | ResultClosed
    | LoggedOut | Retest | UserUpdated(updated: Session.ClientUser<X>)

  /** The handlers: each sets the step, and a few also set the user or the quiz result. */
  function Handle<X, C>(app: AppState<X, C>, e: Event<X, C>): (r: AppState<X, C>)
    ensures r.loading == app.loading
    ensures e.QuizDone? ==> r.step == QuizResult && r.quizResult == Some(e.cluster) && r.user == app.user
    ensures e.LoggedOut? ==> r.step == LoginScreen && r.user.None?
    ensures e.Retest? || e.QuizStarted? ==> r == app.(step := QuizScreen)
    ensures e.OnboardingDone? || e.ResultClosed? ==> r == app.(step := MainScreen)
    ensures e.UserUpdated? ==> r == app.(user := Some(e.updated))
  {
    match e
    case Started => app.(step := LoginScreen)
    case BackToSplash => app.(step := Splash)
    case OnboardingDone => app.(step := MainScreen)
    case QuizStarted => app.(step := QuizScreen)
    case QuizDone(c) => app.(quizResult := Some(c), step := QuizResult)
    case ResultClosed => app.(step := MainScreen)
    case LoggedOut => app.(user := None, step := LoginScreen)
    case Retest => app.(step := QuizScreen)
    case UserUpdated(u) => app.(user := Some(u))
  }

  /**
   * The screen on display: nothing while loading, and the quiz, result and
   * main screens only when the state they need is there.
   */
  function Shown<X, C>(app: AppState<X, C>): (r: Option<Step>)
    ensures r.Some? ==> r.value == app.step && !app.loading
    ensures r.Some? && r.value in {QuizScreen, MainScreen} ==> app.user.Some?
    ensures r.Some? && r.value == QuizResult ==> app.quizResult.Some?
  {
    if app.loading then None
    else match app.step
      case QuizScreen => if app.user.Some? then Some(QuizScreen) else None
      case QuizResult => if app.quizResult.Some? then Some(QuizResult) else None
      case MainScreen => if app.user.Some? then Some(MainScreen) else None
      case s => Some(s)
  }

  /**
   * Logging out forgets the session: the login screen shows, and a reload
   * afterwards restores nobody and lands on the splash screen.
   */
  lemma LogoutThenReload<U, Q, X, C>(app: AppState<X, C>, st: Session.Session<U, Q, X>,
                                     fetched: Option<Session.ServerUser<X>>, latest: Result<Option<Option<C>>, string>)
    requires !app.loading
    ensures Shown(Handle(app, LoggedOut)) == Some(LoginScreen)
    ensures var out := Session.Logout(st);
      var restored := Session.InitUser(Session.Session(out.ls, None), fetched).1;
      Initialize(restored, latest).step == Splash
  {
    Session.LogoutForgets<U, Q, X, C>(st, None, fetched);
  }

  /** A finished quiz always shows its result screen. */
  lemma QuizResultIsShown<X, C>(app: AppState<X, C>, cluster: C)
    requires !app.loading
    ensures Shown(Handle(app, QuizDone(cluster))) == Some(QuizResult)
  {
  }
}
