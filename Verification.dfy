/**
 * The registration code endpoints (backend/controllers/verificationController.js):
 * the e-mail shape check, the decision whether a new code may be sent, with
 * the resend rate limit and its retryAfter hint, the store the code is kept
 * in, and the mapping of a code check to a response.
 */
module Verification {
  import opened Common

  // ---------------------------------------------------------------------
  // The e-mail shape `^[^\s@]+@[^\s@]+\.[^\s@]+$`

  /** A character the pattern's `[^\s@]` class admits. */
  predicate Plain(c: char)
  {
    !IsJsSpace(c) && c != '@'
  }

  predicate AllPlain(s: string)
  {
    forall i :: 0 <= i < |s| ==> Plain(s[i])
  }

  predicate PlainRun(s: string)
  {
    s != [] && AllPlain(s)
  }

  /** The strings the pattern matches: three non-empty runs of plain
      characters, the first two separated by '@', the last two by '.'. */
  ghost predicate MatchesPattern(s: string)
  {
    exists a, b, c :: PlainRun(a) && PlainRun(b) && PlainRun(c) && s == a + "@" + b + "." + c
  }

  /** The check as the handler can run it: a non-empty local part of plain
      characters before the first '@', and after it a domain of plain
      characters with a '.' that is neither its first nor its last character. */
  function IsValidEmail(s: string): bool
  {
    var at := IndexOf(s, '@');
    at > 0 && AllPlain(s[..at]) &&
    var domain := s[at + 1..];
    AllPlain(domain) && |domain| >= 3 && '.' in domain[1..|domain| - 1]
  }

  /** The check accepts exactly the strings the pattern matches. */
  lemma EmailCheckMatchesPattern(s: string)
    ensures IsValidEmail(s) <==> MatchesPattern(s)
  {
    if IsValidEmail(s) {
      ValidMatches(s);
    }
    if MatchesPattern(s) {
      var a, b, c :| PlainRun(a) && PlainRun(b) && PlainRun(c) && s == a + "@" + b + "." + c;
      MatchesValid(a, b, c);
    }
  }

  lemma ValidMatches(s: string)
    requires IsValidEmail(s)
    ensures MatchesPattern(s)
  {
    var at := IndexOf(s, '@');
    var domain := s[at + 1..];
    var inner := domain[1..|domain| - 1];
    var k := IndexOf(inner, '.');
    var a, b, c := s[..at], domain[..k + 1], domain[k + 2..];
    assert domain[k + 1] == '.';
    assert domain == b + "." + c;
    assert s == a + "@" + domain;
    assert AllPlain(b) by {
      forall i | 0 <= i < |b| ensures Plain(b[i]) {
        assert b[i] == domain[i];
      }
    }
    assert AllPlain(c) by {
      forall i | 0 <= i < |c| ensures Plain(c[i]) {
        assert c[i] == domain[k + 2 + i];
      }
    }
    PatternIntro(s, a, b, c);
  }

  lemma PatternIntro(s: string, a: string, b: string, c: string)
    requires PlainRun(a) && PlainRun(b) && PlainRun(c) && s == a + "@" + b + "." + c
    ensures MatchesPattern(s)
  {
  }

  lemma MatchesValid(a: string, b: string, c: string)
    requires PlainRun(a) && PlainRun(b) && PlainRun(c)
    ensures IsValidEmail(a + "@" + b + "." + c)
  {
    var s := a + "@" + b + "." + c;
    assert s[|a|] == '@';
    assert s[..|a|] == a;
    assert '@' !in a;
    assert IndexOf(s, '@') == |a|;
    var domain := s[|a| + 1..];
    assert domain == b + "." + c;
    assert AllPlain(domain) by {
      forall i | 0 <= i < |domain| ensures Plain(domain[i]) {
        if i < |b| {
          assert domain[i] == b[i];
        } else if i > |b| {
          assert domain[i] == c[i - |b| - 1];
        }
      }
    }
    assert domain[1..|domain| - 1][|b| - 1] == '.';
  }

  /** A valid address holds exactly one '@'. */
  lemma ValidEmailHasOneAt(s: string)
    requires IsValidEmail(s)
    ensures exists i :: 0 < i < |s| - 1 && s[i] == '@' && '@' !in s[..i] && '@' !in s[i + 1..]
  {
    var at := IndexOf(s, '@');
    var domain := s[at + 1..];
    assert forall j :: 0 <= j < |domain| ==> domain[j] != '@';
    assert '@' !in s[at + 1..];
  }

  /** The request's e-mail is present and non-empty (truthy). */
  predicate Given(s: Option<string>)
  {
    s.Some? && s.value != []
  }

  // ---------------------------------------------------------------------
  // sendVerificationCode

  datatype SendOutcome =
    | InvalidEmail
    | EmailExists
    | TooManyRequests(retryAfter: int)
    | EmailSendFailed
    | CodeSent(expiresIn: int)

  function SendStatus(o: SendOutcome): int
  {
    match o
    case InvalidEmail => 400
    case EmailExists => 400
    case TooManyRequests(_) => 429
    case EmailSendFailed => 500
    case CodeSent(_) => 200
  }

  /** The seconds a client is told to wait: a code lives 300 seconds and may
      be replaced once 60 of them have passed. */
  function RetryAfter(remainingTime: int): (r: int)
    ensures r == remainingTime - 240
    ensures remainingTime > 240 ==> r > 0
    ensures remainingTime <= 300 ==> r <= 60
  {
    60 - (300 - remainingTime)
  }

  /** Whether an active code blocks a new one: only while more than 240 of
      its 300 seconds remain, i.e. during the first minute. */
  predicate RateLimited(active: bool, remainingTime: int)
  {
    active && remainingTime > 240
  }

  /** The outcome of a send request, given the store's answers for the
      address (whether a code is active and how long it has left), whether
      the address is registered, and whether the mail went out. */
  function SendDecision(email: Option<string>, registered: bool, active: bool, remainingTime: int,
                        emailSent: bool): (o: SendOutcome)
    ensures o == InvalidEmail <==> !Given(email) || !IsValidEmail(email.value)
    ensures o == EmailExists <==> Given(email) && IsValidEmail(email.value) && registered
    ensures o.TooManyRequests? <==>
      Given(email) && IsValidEmail(email.value) && !registered && RateLimited(active, remainingTime)
    ensures o.TooManyRequests? ==> o.retryAfter == remainingTime - 240 && o.retryAfter > 0
    ensures o == EmailSendFailed <==>
      Given(email) && IsValidEmail(email.value) && !registered && !RateLimited(active, remainingTime) && !emailSent
    ensures o.CodeSent? ==> o.expiresIn == 300 && emailSent
  {
    if !Given(email) || !IsValidEmail(email.value) then InvalidEmail
    else if registered then EmailExists
    else if active && remainingTime > 240 then TooManyRequests(RetryAfter(remainingTime))
    else if !emailSent then EmailSendFailed
    else CodeSent(300)
  }

  /** An active code with a minute or more gone does not block a resend. */
  lemma OldCodeDoesNotBlock(email: string, remainingTime: int, emailSent: bool)
    requires IsValidEmail(email) && email != [] && remainingTime <= 240
    ensures SendDecision(Some(email), false, true, remainingTime, emailSent) ==
      if emailSent then CodeSent(300) else EmailSendFailed
  {
  }

  /** The per-address code store the handler writes a new code into before
      the mail is sent. */
  class CodeStore {
    var codes: map<string, string>

    constructor ()
      ensures codes == map[]
    {
      codes := map[];
    }

    /** sendVerificationCode: once the address passed the checks the new
        code is stored, and stays stored when the mail then fails. */
    method SendVerificationCode(email: Option<string>, registered: bool, active: bool, remainingTime: int,
                                code: string, emailSent: bool) returns (outcome: SendOutcome)
      modifies this
      ensures outcome == SendDecision(email, registered, active, remainingTime, emailSent)
      ensures outcome.CodeSent? || outcome == EmailSendFailed ==> codes == old(codes)[email.value := code]
      ensures !(outcome.CodeSent? || outcome == EmailSendFailed) ==> codes == old(codes)
    {
      if !Given(email) || !IsValidEmail(email.value) {
        return InvalidEmail;
      }
      if registered {
        return EmailExists;
      }
      if active {
        if remainingTime > 240 {
          return TooManyRequests(60 - (300 - remainingTime));
        }
      }
      codes := codes[email.value := code];
      if !emailSent {
        return EmailSendFailed;
      }
      return CodeSent(300);
    }
  }

  // ---------------------------------------------------------------------
  // verifyCode

  /** What the code service answers for an address and a code. */
  datatype CheckResult = CheckResult(valid: bool, message: string)

  datatype VerifyOutcome = MissingParams | CodeValid(message: string) | InvalidCode(message: string)

  function VerifyStatus(o: VerifyOutcome): int
  {
    match o
    case MissingParams => 400
    case CodeValid(_) => 200
    case InvalidCode(_) => 400
  }

  /** verifyCode: 400 MISSING_PARAMS without both fields, otherwise 200 valid
      exactly when the service says so and 400 INVALID_CODE when it does not,
      passing on the service's message. */
  function VerifyCode(email: Option<string>, code: Option<string>, check: (string, string) -> CheckResult)
    : (o: VerifyOutcome)
    ensures o == MissingParams <==> !Given(email) || !Given(code)
    ensures o.CodeValid? <==> Given(email) && Given(code) && check(email.value, code.value).valid
    ensures o.InvalidCode? <==> Given(email) && Given(code) && !check(email.value, code.value).valid
    ensures !o.MissingParams? ==> o.message == check(email.value, code.value).message
    ensures VerifyStatus(o) == 200 <==> o.CodeValid?
  {
    if !Given(email) || !Given(code) then MissingParams
    else
      var result := check(email.value, code.value);
      if result.valid then CodeValid(result.message) else InvalidCode(result.message)
  }
}
