/**
 * The password dialog (frontend/src/components/ChangePasswordModal.jsx):
 * the 30-day countdown computed from the last password change, the length
 * rule, the order of the checks on submit, and when the limit hint shows.
 */
module ChangePasswordModal {
  import opened Common
  import UserController

  const DayMs: int := 1000 * 60 * 60 * 24

  /** user.passwordUpdatedAt: absent (or empty), a text `new Date` cannot
      read, or a point in time in milliseconds. */
  datatype Timestamp = Missing | Unparseable | At(ms: int)

  /** The dialog's state after the countdown effect: whether the fields and
      the submit button are enabled, and the days the hint reports. */
  datatype Countdown = Countdown(canChange: bool, daysRemaining: int)

  /** The countdown effect as the source computes it. For an unparseable
      date the elapsed time is NaN, every comparison with NaN is false, and
      the dialog ends up locked with 0 days remaining. */
  function CountdownAsWritten(updatedAt: Timestamp, now: int): (c: Countdown)
    ensures updatedAt == Missing ==> c == Countdown(true, 0)
    ensures updatedAt == Unparseable ==> c == Countdown(false, 0)
    ensures updatedAt.At? ==> c == CountdownAt(updatedAt.ms, now)
  {
    match updatedAt
    case Missing => Countdown(true, 0)
    case Unparseable => Countdown(false, 0)
    case At(ms) => CountdownAt(ms, now)
  }

  /** The countdown for a known time of the last change: whole days elapsed,
      rounded down, against the 30-day limit. */
  function CountdownAt(ms: int, now: int): (c: Countdown)
    ensures c.canChange <==> now - ms >= 30 * DayMs
    ensures c.daysRemaining >= 0
    ensures !c.canChange <==> c.daysRemaining > 0
    ensures now >= ms ==> c.daysRemaining <= 30
    ensures !c.canChange ==> c.daysRemaining == 30 - (now - ms) / DayMs
  {
    var daysSinceUpdate := (now - ms) / DayMs;
    var remaining := 30 - daysSinceUpdate;
    FloorDays(now - ms);
    Countdown(remaining <= 0, if remaining > 0 then remaining else 0)
  }

  /** Euclidean division by a day is the floor of JavaScript's division. */
  lemma FloorDays(elapsed: int)
    ensures (elapsed / DayMs) * DayMs <= elapsed < (elapsed / DayMs + 1) * DayMs
    ensures elapsed / DayMs >= 30 <==> elapsed >= 30 * DayMs
    ensures elapsed >= 0 ==> elapsed / DayMs >= 0
  {
  }

  /** The countdown with an unparseable date treated like a failed
      computation: the change is allowed, as the effect's error handler does. */
  function DialogCountdown(updatedAt: Timestamp, now: int): (c: Countdown)
    ensures updatedAt.At? ==> c == CountdownAt(updatedAt.ms, now)
    ensures !updatedAt.At? ==> c == Countdown(true, 0)
    ensures c.daysRemaining >= 0
  {
    match updatedAt
    case At(ms) => CountdownAt(ms, now)
    case _ => Countdown(true, 0)
  }

  /** `{!canChangePassword && daysRemaining > 0 && …}` */
  predicate ShowsLimitHint(c: Countdown)
  {
    !c.canChange && c.daysRemaining > 0
  }

  /** Whenever the dialog is locked it says for how long. */
  lemma LockedShowsHint(updatedAt: Timestamp, now: int)
    ensures ShowsLimitHint(DialogCountdown(updatedAt, now)) <==> !DialogCountdown(updatedAt, now).canChange
  {
  }

  /** As written, an unparseable date locks the dialog without the hint. */
  lemma UnparseableLocksSilently(now: int)
    ensures !CountdownAsWritten(Unparseable, now).canChange
    ensures !ShowsLimitHint(CountdownAsWritten(Unparseable, now))
  {
  }

  /** The two countdowns differ only on an unparseable date. */
  lemma CountdownsAgree(updatedAt: Timestamp, now: int)
    requires updatedAt != Unparseable
    ensures DialogCountdown(updatedAt, now) == CountdownAsWritten(updatedAt, now)
  {
  }

  // ---------------------------------------------------------------------
  // Submit

  /** validatePassword: at least 8 UTF-16 units. */
  predicate ValidatePassword(password: string)
  {
    Utf16Length(password) >= 8
  }

  /** validatePassword accepts every string of 8 or more characters and,
      among strings of the Basic Multilingual Plane, exactly those. */
  lemma ValidatePasswordByLength(password: string)
    ensures |password| >= 8 ==> ValidatePassword(password)
    ensures (forall i :: 0 <= i < |password| ==> password[i] <= '\U{FFFF}') ==>
      (ValidatePassword(password) <==> |password| >= 8)
  {
  }

  /** What the server answers: success, or an error that may carry a message. */
  datatype ApiAnswer = ApiOk | ApiError(message: Option<string>)

  datatype SubmitOutcome =
    | PasswordTooShort
    | PasswordMismatch
    | SameAsCurrent
    | LocalTestUpdate
    | Changed
    | Failed(message: string)   // the server's message, or the generic 'failed' text

  /** True when the outcome came from calling the change-password API. */
  predicate CalledApi(o: SubmitOutcome)
  {
    o.Changed? || o.Failed?
  }

  /** handleSubmit: the three input checks in order, then a test account is
      updated locally, and only then is the API called. `failedText` is the
      translated generic failure message. */
  function HandleSubmit(currentPassword: string, newPassword: string, confirmPassword: string,
                        token: Option<string>, api: ApiAnswer, failedText: string): (o: SubmitOutcome)
    ensures o == PasswordTooShort <==> !ValidatePassword(newPassword)
    ensures o == PasswordMismatch <==> ValidatePassword(newPassword) && newPassword != confirmPassword
    ensures o == SameAsCurrent <==>
      ValidatePassword(newPassword) && newPassword == confirmPassword && newPassword == currentPassword
    ensures o == LocalTestUpdate <==>
      ValidatePassword(newPassword) && newPassword == confirmPassword && newPassword != currentPassword
      && token.Some? && StartsWith(token.value, "test-token-")
    ensures CalledApi(o) ==>
      ValidatePassword(newPassword) && newPassword == confirmPassword && newPassword != currentPassword
      && !(token.Some? && StartsWith(token.value, "test-token-"))
    ensures o.Failed? ==>
      && api.ApiError?
      && o.message == (if api.message.Some? && api.message.value != [] then api.message.value else failedText)
  {
    if !ValidatePassword(newPassword) then PasswordTooShort
    else if newPassword != confirmPassword then PasswordMismatch
    else if newPassword == currentPassword then SameAsCurrent
    else if token.Some? && StartsWith(token.value, "test-token-") then LocalTestUpdate
    else match api
      case ApiOk => Changed
      case ApiError(message) =>
        Failed(if message.Some? && message.value != [] then message.value else failedText)
  }

  /** A password the dialog sends passes the server's own input checks. */
  lemma DialogAgreesWithServer(currentPassword: string, newPassword: string, confirmPassword: string,
                               token: Option<string>, api: ApiAnswer, failedText: string,
                               change: (string, string) -> UserController.PasswordAnswer)
    requires currentPassword != []
    requires CalledApi(HandleSubmit(currentPassword, newPassword, confirmPassword, token, api, failedText))
    ensures UserController.ChangePassword(Some(currentPassword), Some(newPassword), change)
      !in {UserController.MissingFields, UserController.PasswordTooShort}
  {
  }
}
