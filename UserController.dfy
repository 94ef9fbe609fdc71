/**
 * The profile, password and daily-task endpoints (backend/controllers/userController.js):
 * the ordered checks updateProfile makes before it writes a new username or
 * tag, the input checks and error mapping of changePassword, and the
 * taskType check of completeDailyTask. The user and task models they call are not
 * part of this model: their answers are parameters.
 */
module UserController {
  import opened Common

  /** A string field of a JSON request body: left out, null, or a string. */
  datatype Input = Absent | Null | Text(s: string)

  /** The columns of the current user the checks read; the timestamps are
      null until the field was first changed. */
  datatype CurrentUser = CurrentUser(
    username: Option<string>,
    tag: Option<string>,
    usernameUpdatedAt: Option<int>,
    tagUpdatedAt: Option<int>)

  /** User.canModifyUsernameOrTag's answer for a last-change time. */
  datatype LimitCheck = LimitCheck(canModify: bool, daysRemaining: int)

  /** The lookups updateProfile makes: the 30-day limit, and which user holds
      a username or a tag. */
  datatype Lookups = Lookups(
    limit: int -> LimitCheck,
    usernameHolder: string -> Option<int>,
    tagHolder: string -> Option<int>)

  datatype ProfileOutcome =
    | UserNotFound
    | UsernameUpdateLimit(daysRemaining: int)
    | UsernameExists
    | TagUpdateLimit(daysRemaining: int)
    | TagExists
    | Proceed

  function ProfileStatus(o: ProfileOutcome): int
  {
    if o == UserNotFound then 404 else if o == Proceed then 200 else 400
  }

  /** `field !== undefined && field !== current` */
  predicate Changed(field: Input, current: Option<string>)
  {
    match field
    case Absent => false
    case Null => current.Some?
    case Text(s) => current != Some(s)
  }

  /** The user holding a name, as a `WHERE name = $1` lookup finds it; a
      null value matches no row. */
  function Holder(lookup: string -> Option<int>, field: Input): Option<int>
  {
    if field.Text? then lookup(field.s) else None
  }

  /** Another user than the requester holds the value. */
  predicate HeldByOther(holder: Option<int>, userId: int)
  {
    holder.Some? && holder.value != userId
  }

  /** The 30-day limit blocks a change: it applies only when the field has a
      recorded last change. */
  predicate LimitBlocks(limit: int -> LimitCheck, updatedAt: Option<int>)
  {
    updatedAt.Some? && !limit(updatedAt.value).canModify
  }

  /** The tag is worth a uniqueness lookup: truthy and not blank. */
  predicate NonBlankTag(tag: Input)
  {
    tag.Text? && tag.s != [] && Trim(tag.s) != []
  }

  /** The username checks: None when they pass. */
  function UsernameCheck(user: CurrentUser, userId: int, username: Input, look: Lookups): (r: Option<ProfileOutcome>)
    ensures r.Some? ==> Changed(username, user.username)
    ensures r.Some? ==> r.value.UsernameUpdateLimit? || r.value == UsernameExists
    ensures r.Some? && r.value.UsernameUpdateLimit? <==>
      Changed(username, user.username) && LimitBlocks(look.limit, user.usernameUpdatedAt)
    ensures r.Some? && r.value.UsernameUpdateLimit? ==>
      r.value.daysRemaining == look.limit(user.usernameUpdatedAt.value).daysRemaining
    ensures r == Some(UsernameExists) <==>
      Changed(username, user.username) && !LimitBlocks(look.limit, user.usernameUpdatedAt)
      && HeldByOther(Holder(look.usernameHolder, username), userId)
  {
    if !Changed(username, user.username) then None
    else if LimitBlocks(look.limit, user.usernameUpdatedAt) then
      Some(UsernameUpdateLimit(look.limit(user.usernameUpdatedAt.value).daysRemaining))
    else if HeldByOther(Holder(look.usernameHolder, username), userId) then Some(UsernameExists)
    else None
  }

  /** The tag checks: None when they pass. A blank tag is never looked up. */
  function TagCheck(user: CurrentUser, userId: int, tag: Input, look: Lookups): (r: Option<ProfileOutcome>)
    ensures r.Some? ==> Changed(tag, user.tag)
    ensures r.Some? ==> r.value.TagUpdateLimit? || r.value == TagExists
    ensures r.Some? && r.value.TagUpdateLimit? <==> Changed(tag, user.tag) && LimitBlocks(look.limit, user.tagUpdatedAt)
    ensures r.Some? && r.value.TagUpdateLimit? ==>
      r.value.daysRemaining == look.limit(user.tagUpdatedAt.value).daysRemaining
    ensures r == Some(TagExists) <==>
      Changed(tag, user.tag) && !LimitBlocks(look.limit, user.tagUpdatedAt)
      && NonBlankTag(tag) && HeldByOther(look.tagHolder(tag.s), userId)
  {
    if !Changed(tag, user.tag) then None
    else if LimitBlocks(look.limit, user.tagUpdatedAt) then
      Some(TagUpdateLimit(look.limit(user.tagUpdatedAt.value).daysRemaining))
    else if NonBlankTag(tag) && HeldByOther(look.tagHolder(tag.s), userId) then Some(TagExists)
    else None
  }

  /** updateProfile's checks, in order: the user exists, then the username
      checks, then the tag checks; Proceed means User.update is issued. */
  function UpdateProfile(current: Option<CurrentUser>, userId: int, username: Input, tag: Input, look: Lookups)
    : (r: ProfileOutcome)
    ensures r == UserNotFound <==> current.None?
    ensures current.Some? && UsernameCheck(current.value, userId, username, look).Some? ==>
      r == UsernameCheck(current.value, userId, username, look).value
    ensures current.Some? && UsernameCheck(current.value, userId, username, look).None? ==>
      r == (match TagCheck(current.value, userId, tag, look) case Some(e) => e case None => Proceed)
    ensures r == Proceed <==>
      current.Some? && UsernameCheck(current.value, userId, username, look).None?
      && TagCheck(current.value, userId, tag, look).None?
  {
    match current
    case None => UserNotFound
    case Some(user) =>
      match UsernameCheck(user, userId, username, look)
      case Some(e) => e
      case None =>
        match TagCheck(user, userId, tag, look)
        case Some(e) => e
        case None => Proceed
  }

  /** A username error wins over any tag error: once the username checks
      fail, the tag in the request makes no difference. */
  lemma UsernameErrorsFirst(user: CurrentUser, userId: int, username: Input, tag1: Input, tag2: Input, look: Lookups)
    requires UsernameCheck(user, userId, username, look).Some?
    ensures UpdateProfile(Some(user), userId, username, tag1, look) == UpdateProfile(Some(user), userId, username, tag2, look)
    ensures UpdateProfile(Some(user), userId, username, tag1, look) != Proceed
  {
  }

  /** Keeping the username (leaving it out or sending the current one)
      consults neither the limit nor the holder lookup for it. */
  lemma UnchangedUsernameSkipsChecks(user: CurrentUser, userId: int, tag: Input, look: Lookups)
    requires user.username.Some?
    ensures UpdateProfile(Some(user), userId, Absent, tag, look) == UpdateProfile(Some(user), userId, Text(user.username.value), tag, look)
    ensures UpdateProfile(Some(user), userId, Absent, tag, look).UsernameUpdateLimit? == false
    ensures UpdateProfile(Some(user), userId, Absent, tag, look) != UsernameExists
  {
  }

  /** A user may take back a username they hold themselves. */
  lemma OwnUsernameAllowed(user: CurrentUser, userId: int, name: string, tag: Input, look: Lookups)
    requires look.usernameHolder(name) == Some(userId)
    requires !LimitBlocks(look.limit, user.usernameUpdatedAt)
    ensures UsernameCheck(user, userId, Text(name), look).None?
  {
  }

  // ---------------------------------------------------------------------
  // changePassword

  /** What User.changePassword does: returns the updated user, returns
      nothing, or throws an error with a message (and, for the limit, the
      days remaining). */
  datatype PasswordAnswer = Updated | NoUser | Threw(message: string, daysRemaining: int)

  datatype PasswordOutcome =
    | MissingFields
    | PasswordTooShort
    | PasswordChanged
    | PasswordUserNotFound
    | InvalidCurrentPassword
    | PasswordUpdateLimit(daysRemaining: int)
    | PasswordInternalError

  function PasswordStatus(o: PasswordOutcome): int
  {
    match o
    case MissingFields => 400
    case PasswordTooShort => 400
    case PasswordChanged => 200
    case PasswordUserNotFound => 404
    case InvalidCurrentPassword => 400
    case PasswordUpdateLimit(_) => 400
    case PasswordInternalError => 500
  }

  predicate Truthy(s: Option<string>)
  {
    s.Some? && s.value != []
  }

  /** The catch block: the error's message picks the response. */
  function MapPasswordError(message: string, daysRemaining: int): (o: PasswordOutcome)
    ensures o == InvalidCurrentPassword <==> message == "INVALID_CURRENT_PASSWORD"
    ensures o.PasswordUpdateLimit? <==> message == "PASSWORD_UPDATE_LIMIT"
    ensures o.PasswordUpdateLimit? ==> o.daysRemaining == daysRemaining
    ensures o == PasswordUserNotFound <==> message == "USER_NOT_FOUND"
    ensures o == PasswordInternalError <==>
      message !in {"INVALID_CURRENT_PASSWORD", "PASSWORD_UPDATE_LIMIT", "USER_NOT_FOUND"}
  {
    if message == "INVALID_CURRENT_PASSWORD" then InvalidCurrentPassword
    else if message == "PASSWORD_UPDATE_LIMIT" then PasswordUpdateLimit(daysRemaining)
    else if message == "USER_NOT_FOUND" then PasswordUserNotFound
    else PasswordInternalError
  }

  /** changePassword: both passwords present, then the new one at least 8
      UTF-16 units long; only then is the user model asked. */
  function ChangePassword(currentPassword: Option<string>, newPassword: Option<string>,
                          change: (string, string) -> PasswordAnswer): (o: PasswordOutcome)
    ensures o == MissingFields <==> !Truthy(currentPassword) || !Truthy(newPassword)
    ensures o == PasswordTooShort <==>
      Truthy(currentPassword) && Truthy(newPassword) && Utf16Length(newPassword.value) < 8
    ensures o == PasswordChanged ==> change(currentPassword.value, newPassword.value) == Updated
    ensures Truthy(currentPassword) && Truthy(newPassword) && Utf16Length(newPassword.value) >= 8 ==>
      match change(currentPassword.value, newPassword.value)
      case Updated => o == PasswordChanged
      case NoUser => o == PasswordUserNotFound
      case Threw(message, days) => o == MapPasswordError(message, days)
  {
    if !Truthy(currentPassword) || !Truthy(newPassword) then MissingFields
    else if Utf16Length(newPassword.value) < 8 then PasswordTooShort
    else
      match change(currentPassword.value, newPassword.value)
      case Updated => PasswordChanged
      case NoUser => PasswordUserNotFound
      case Threw(message, days) => MapPasswordError(message, days)
  }

  /** A failed input check answers 400 whatever the user model would do. */
  lemma InputChecksComeFirst(currentPassword: Option<string>, newPassword: Option<string>,
                             change1: (string, string) -> PasswordAnswer, change2: (string, string) -> PasswordAnswer)
    requires !Truthy(currentPassword) || !Truthy(newPassword) || Utf16Length(newPassword.value) < 8
    ensures ChangePassword(currentPassword, newPassword, change1) == ChangePassword(currentPassword, newPassword, change2)
    ensures PasswordStatus(ChangePassword(currentPassword, newPassword, change1)) == 400
  {
  }

  // ---------------------------------------------------------------------
  // completeDailyTask

  /** What DailyTask.completeTask does: completes the daily task (reporting the
      user's experience if it knows it), or throws an error that may carry
      an HTTP status. */
  datatype TaskAnswer = TaskCompleted(currentExp: Option<nat>) | TaskThrew(status: Option<int>)

  datatype TaskOutcome = EmptyTaskType | InvalidTask | TaskDone(exp: int) | TaskInternalError

  function TaskStatus(o: TaskOutcome): int
  {
    match o
    case EmptyTaskType => 400
    case InvalidTask => 400
    case TaskDone(_) => 200
    case TaskInternalError => 500
  }

  /** The experience reported after a task: `parseInt(currentExp ?? user.exp ?? 0, 10)`. */
  function ReportedExp(currentExp: Option<nat>, userExp: Option<nat>): (r: Option<int>)
    ensures currentExp.Some? ==> r == Some(currentExp.value)
    ensures currentExp.None? && userExp.Some? ==> r == Some(userExp.value)
    ensures currentExp.None? && userExp.None? ==> r == Some(0)
  {
    var n := if currentExp.Some? then currentExp.value else if userExp.Some? then userExp.value else 0;
    ParseIntOfNat(n, "");
    assert NatToString(n) + "" == NatToString(n);
    ParseInt10(NatToString(n))
  }

  /** completeDailyTask: an empty task type is refused before the daily-task model
      is asked; a task error with status 400 is an invalid task, any other
      error is a 500. */
  function CompleteDailyTask(taskType: Option<string>, complete: string -> TaskAnswer, userExp: Option<nat>)
    : (o: TaskOutcome)
    ensures o == EmptyTaskType <==> !Truthy(taskType)
    ensures Truthy(taskType) ==>
      match complete(taskType.value)
      case TaskCompleted(currentExp) => o.TaskDone? && Some(o.exp) == ReportedExp(currentExp, userExp)
      case TaskThrew(status) => o == (if status == Some(400) then InvalidTask else TaskInternalError)
    ensures o == InvalidTask || o == EmptyTaskType <==> TaskStatus(o) == 400
  {
    if !Truthy(taskType) then EmptyTaskType
    else
      match complete(taskType.value)
      case TaskCompleted(currentExp) => TaskDone(ReportedExp(currentExp, userExp).value)
      case TaskThrew(status) => if status == Some(400) then InvalidTask else TaskInternalError
  }
}
