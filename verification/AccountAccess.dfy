/** Login lockout and one-time passwords (authentication/authentication.service.ts and
    authentication/otp.service.ts) as one state machine over the stored user row.

    Passwords and codes are compared by an abstract predicate `matches(plain, hash)`, and freshly
    generated hashes arrive with the request. A request reads the clock twice: once when it checks
    and once when it writes. Times are milliseconds. */
module AccountAccess {
  import opened Common

  const MAX_LOGIN_ATTEMPTS: nat := 5
  const LOCKOUT_MS: int := 15 * 60 * 1000
  const MAX_OTP_ATTEMPTS: nat := 3
  const RESEND_COOLDOWN_MS: int := 60000

  type Matcher = (string, string) -> bool

  datatype Account = Account(
    passwordHash: Option<string>, emailVerified: bool, otpEnabled: bool,
    failedLoginAttempts: nat, lockedUntil: Option<int>, lastLoginAt: Option<int>,
    otpHash: Option<string>, otpExpiresAt: Option<int>, otpFailedAttempts: nat,
    resetToken: Option<string>, resetTokenExpiresAt: Option<int>)

  datatype Request =
    | Login(password: string, checkedAt: int, writtenAt: int, newOtpHash: string)
    | VerifyOtp(code: string, checkedAt: int, writtenAt: int)
    | ResendOtp(checkedAt: int, writtenAt: int, newOtpHash: string)
    | ResetPassword(token: string, newPasswordHash: string, confirmed: bool, checkedAt: int, writtenAt: int)
    | OtherChange(checkedAt: int, writtenAt: int, passwordHash: Option<string>, emailVerified: bool,
                  otpEnabled: bool, resetToken: Option<string>, resetTokenExpiresAt: Option<int>)
      // changePassword, forgotPassword, verifyEmail, enableOtp, disableOtp: any effect on these fields

  datatype Outcome =
    | AccountLocked(minutesRemaining: int) | PasswordNotSet | WrongPassword | EmailNotVerified
    | LoginOtpSent | LoggedIn
    | NoOtpPending | TooManyOtpAttempts | OtpExpired | WrongOtp | OtpAccepted
    | ResendSuppressed | OtpResent
    | PasswordMismatch | InvalidToken | TokenExpired | PasswordReset
    | Changed

  // ---------------------------------------------------------------- transitions

  /** `Math.ceil(ms / 60000)`: the least number of minutes that covers the time. */
  function CeilMinutes(ms: int): (minutes: int)
    ensures 60000 * (minutes - 1) < ms <= 60000 * minutes
  {
    (ms + 59999) / 60000
  }

  function OtpIssued(a: Account, lifetime: int, newOtpHash: string, at: int): Account {
    a.(otpHash := Some(newOtpHash), otpExpiresAt := Some(at + lifetime), otpFailedAttempts := 0)
  }

  function LoginStep(m: Matcher, lifetime: int, a: Account, r: Request): (Account, Outcome)
    requires r.Login?
  {
    if a.lockedUntil.Some? && a.lockedUntil.value > r.checkedAt then
      (a, AccountLocked(CeilMinutes(a.lockedUntil.value - r.checkedAt)))
    else if !Truthy(a.passwordHash) then (a, PasswordNotSet)
    else if !m(r.password, a.passwordHash.value) then
      var failed := a.failedLoginAttempts + 1;
      (a.(failedLoginAttempts := failed,
          lockedUntil := if failed >= MAX_LOGIN_ATTEMPTS then Some(r.writtenAt + LOCKOUT_MS) else a.lockedUntil),
       WrongPassword)
    else if !a.emailVerified then (a, EmailNotVerified)
    else if a.otpEnabled then (OtpIssued(a, lifetime, r.newOtpHash, r.writtenAt), LoginOtpSent)
    else (a.(failedLoginAttempts := 0, lockedUntil := None, lastLoginAt := Some(r.writtenAt)), LoggedIn)
  }

  function VerifyOtpStep(m: Matcher, a: Account, r: Request): (Account, Outcome)
    requires r.VerifyOtp?
  {
    if !Truthy(a.otpHash) then (a, NoOtpPending)
    else if a.otpFailedAttempts >= MAX_OTP_ATTEMPTS then (a, TooManyOtpAttempts)
    else if a.otpExpiresAt.Some? && a.otpExpiresAt.value < r.checkedAt then (a, OtpExpired)
    else if !m(r.code, a.otpHash.value) then (a.(otpFailedAttempts := a.otpFailedAttempts + 1), WrongOtp)
    else (a.(otpHash := None, otpExpiresAt := None, otpFailedAttempts := 0,
             failedLoginAttempts := 0, lockedUntil := None, lastLoginAt := Some(r.writtenAt)), OtpAccepted)
  }

  function ResendOtpStep(lifetime: int, a: Account, r: Request): (Account, Outcome)
    requires r.ResendOtp?
  {
    if a.otpExpiresAt.Some? && r.checkedAt - (a.otpExpiresAt.value - lifetime) < RESEND_COOLDOWN_MS then
      (a, ResendSuppressed)
    else (OtpIssued(a, lifetime, r.newOtpHash, r.writtenAt), OtpResent)
  }

  function ResetPasswordStep(a: Account, r: Request): (Account, Outcome)
    requires r.ResetPassword?
  {
    if !r.confirmed then (a, PasswordMismatch)
    else if a.resetToken != Some(r.token) then (a, InvalidToken)
    else if a.resetTokenExpiresAt.Some? && a.resetTokenExpiresAt.value < r.checkedAt then (a, TokenExpired)
    else (a.(passwordHash := Some(r.newPasswordHash), resetToken := None, resetTokenExpiresAt := None,
             failedLoginAttempts := 0, lockedUntil := None), PasswordReset)
  }

  function Apply(m: Matcher, lifetime: int, a: Account, r: Request): (Account, Outcome) {
    match r
    case Login(_, _, _, _) => LoginStep(m, lifetime, a, r)
    case VerifyOtp(_, _, _) => VerifyOtpStep(m, a, r)
    case ResendOtp(_, _, _) => ResendOtpStep(lifetime, a, r)
    case ResetPassword(_, _, _, _, _) => ResetPasswordStep(a, r)
    case OtherChange(_, _, hash, verified, otp, token, expires) =>
      (a.(passwordHash := hash, emailVerified := verified, otpEnabled := otp,
          resetToken := token, resetTokenExpiresAt := expires), Changed)
  }

  // ---------------------------------------------------------------- what each request decides

  ghost predicate LockedAt(a: Account, now: int) {
    exists until :: a.lockedUntil == Some(until) && now < until
  }

  predicate HasPassword(a: Account) {
    a.passwordHash != None && a.passwordHash != Some("")
  }

  predicate SameCredentials(a: Account, b: Account) {
    a.passwordHash == b.passwordHash && a.emailVerified == b.emailVerified && a.otpEnabled == b.otpEnabled
    && a.resetToken == b.resetToken && a.resetTokenExpiresAt == b.resetTokenExpiresAt
  }

  predicate SameLockout(a: Account, b: Account) {
    a.failedLoginAttempts == b.failedLoginAttempts && a.lockedUntil == b.lockedUntil
  }

  predicate SameCode(a: Account, b: Account) {
    a.otpHash == b.otpHash && a.otpExpiresAt == b.otpExpiresAt && a.otpFailedAttempts == b.otpFailedAttempts
  }

  predicate CodeSent(b: Account, hash: string, expiresAt: int) {
    b.otpHash == Some(hash) && b.otpExpiresAt == Some(expiresAt) && b.otpFailedAttempts == 0
  }

  predicate LockoutCleared(b: Account) {
    b.failedLoginAttempts == 0 && b.lockedUntil == None
  }

  /** Exactly when a login has which outcome, over the columns of the row it reads. */
  ghost predicate LoginDecided(m: Matcher, a: Account, password: string, now: int, o: Outcome) {
    var mayTry := !LockedAt(a, now) && HasPassword(a);
    var right := mayTry && m(password, a.passwordHash.value);
    && (o.AccountLocked? <==> LockedAt(a, now))
    && (o.AccountLocked? ==> 60000 * (o.minutesRemaining - 1) < a.lockedUntil.value - now <= 60000 * o.minutesRemaining)
    && (o == PasswordNotSet <==> !LockedAt(a, now) && !HasPassword(a))
    && (o == WrongPassword <==> mayTry && !right)
    && (o == EmailNotVerified <==> right && !a.emailVerified)
    && (o == LoginOtpSent <==> right && a.emailVerified && a.otpEnabled)
    && (o == LoggedIn <==> right && a.emailVerified && !a.otpEnabled)
  }

  /** What a login with the given outcome does to the row. */
  ghost predicate LoginEffect(a: Account, b: Account, lifetime: int, at: int, newOtpHash: string, o: Outcome) {
    && SameCredentials(a, b)
    && (o != LoginOtpSent ==> SameCode(a, b))
    && (o == LoginOtpSent ==> CodeSent(b, newOtpHash, at + lifetime))
    && (o != WrongPassword && o != LoggedIn ==> SameLockout(a, b))
    && (o == WrongPassword ==>
          && b.failedLoginAttempts == a.failedLoginAttempts + 1
          && b.lockedUntil == if a.failedLoginAttempts < 4 then a.lockedUntil else Some(at + 15 * 60000))
    && (o == LoggedIn ==> LockoutCleared(b))
    && b.lastLoginAt == if o == LoggedIn then Some(at) else a.lastLoginAt
  }

  lemma LoginOutcome(m: Matcher, lifetime: int, a: Account, r: Request)
    requires r.Login?
    ensures var (b, o) := Apply(m, lifetime, a, r);
            LoginDecided(m, a, r.password, r.checkedAt, o) && LoginEffect(a, b, lifetime, r.writtenAt, r.newOtpHash, o)
  {
  }

  /** Exactly when checking a code has which outcome. */
  ghost predicate VerifyOtpDecided(m: Matcher, a: Account, code: string, now: int, o: Outcome) {
    var pending := a.otpHash != None && a.otpHash != Some("");
    var expired := exists at :: a.otpExpiresAt == Some(at) && at < now;
    var compared := pending && a.otpFailedAttempts < 3 && !expired;
    && (o == NoOtpPending <==> !pending)
    && (o == TooManyOtpAttempts <==> pending && a.otpFailedAttempts >= 3)
    && (o == OtpExpired <==> pending && a.otpFailedAttempts < 3 && expired)
    && (o == WrongOtp <==> compared && !m(code, a.otpHash.value))
    && (o == OtpAccepted <==> compared && m(code, a.otpHash.value))
  }

  ghost predicate VerifyOtpEffect(a: Account, b: Account, at: int, o: Outcome) {
    && SameCredentials(a, b)
    && (o != OtpAccepted ==> SameLockout(a, b) && a.otpHash == b.otpHash && a.otpExpiresAt == b.otpExpiresAt)
    && (o != OtpAccepted ==> b.otpFailedAttempts == a.otpFailedAttempts + if o == WrongOtp then 1 else 0)
    && (o == OtpAccepted ==>
          LockoutCleared(b) && b.otpHash == None && b.otpExpiresAt == None && b.otpFailedAttempts == 0)
    && b.lastLoginAt == if o == OtpAccepted then Some(at) else a.lastLoginAt
  }

  lemma VerifyOtpOutcome(m: Matcher, lifetime: int, a: Account, r: Request)
    requires r.VerifyOtp?
    ensures var (b, o) := Apply(m, lifetime, a, r);
            VerifyOtpDecided(m, a, r.code, r.checkedAt, o) && VerifyOtpEffect(a, b, r.writtenAt, o)
  {
  }

  /** A resend is suppressed exactly within a minute of the time the expiry was counted from. */
  ghost predicate ResendDecided(a: Account, b: Account, lifetime: int, r: Request, o: Outcome)
    requires r.ResendOtp?
  {
    && (o == OtpResent || o == ResendSuppressed)
    && (o == ResendSuppressed <==>
          exists expiry :: a.otpExpiresAt == Some(expiry) && r.checkedAt < expiry - lifetime + 60000)
    && (o == ResendSuppressed ==> a == b)
    && (o == OtpResent ==> CodeSent(b, r.newOtpHash, r.writtenAt + lifetime))
    && SameCredentials(a, b) && SameLockout(a, b) && a.lastLoginAt == b.lastLoginAt
  }

  lemma ResendOutcome(m: Matcher, lifetime: int, a: Account, r: Request)
    requires r.ResendOtp?
    ensures var (b, o) := Apply(m, lifetime, a, r);
            ResendDecided(a, b, lifetime, r, o)
  {
  }

  /** Exactly when a reset succeeds, and what it stores. */
  ghost predicate ResetDecided(a: Account, b: Account, r: Request, o: Outcome)
    requires r.ResetPassword?
  {
    var known := a.resetToken == Some(r.token);
    var expired := exists at :: a.resetTokenExpiresAt == Some(at) && at < r.checkedAt;
    && (o == PasswordMismatch <==> !r.confirmed)
    && (o == InvalidToken <==> r.confirmed && !known)
    && (o == TokenExpired <==> r.confirmed && known && expired)
    && (o == PasswordReset <==> r.confirmed && known && !expired)
    && (o != PasswordReset ==> a == b)
    && (o == PasswordReset ==>
          && b.passwordHash == Some(r.newPasswordHash) && b.resetToken == None && b.resetTokenExpiresAt == None
          && LockoutCleared(b) && SameCode(a, b) && a.lastLoginAt == b.lastLoginAt
          && a.emailVerified == b.emailVerified && a.otpEnabled == b.otpEnabled)
  }

  lemma ResetOutcome(m: Matcher, lifetime: int, a: Account, r: Request)
    requires r.ResetPassword?
    ensures var (b, o) := Apply(m, lifetime, a, r);
            ResetDecided(a, b, r, o)
  {
  }

  // ---------------------------------------------------------------- the services over the stored row

  class UserRow {
    var passwordHash: Option<string>
    var emailVerified: bool
    var otpEnabled: bool
    var failedLoginAttempts: nat
    var lockedUntil: Option<int>
    var lastLoginAt: Option<int>
    var otpHash: Option<string>
    var otpExpiresAt: Option<int>
    var otpFailedAttempts: nat
    var resetToken: Option<string>
    var resetTokenExpiresAt: Option<int>

    ghost function State(): Account
      reads this
    {
      Account(passwordHash, emailVerified, otpEnabled, failedLoginAttempts, lockedUntil, lastLoginAt,
              otpHash, otpExpiresAt, otpFailedAttempts, resetToken, resetTokenExpiresAt)
    }

    method SendLoginOtp(lifetime: int, newOtpHash: string, now: int)
      modifies this
      ensures State() == OtpIssued(old(State()), lifetime, newOtpHash, now)
    {
      otpHash := Some(newOtpHash);
      otpExpiresAt := Some(now + lifetime);
      otpFailedAttempts := 0;
    }

    method GetAuthenticatedUser(m: Matcher, lifetime: int, password: string,
                                checkedAt: int, writtenAt: int, newOtpHash: string)
      returns (o: Outcome)
      modifies this
      ensures (State(), o) == LoginStep(m, lifetime, old(State()), Login(password, checkedAt, writtenAt, newOtpHash))
      ensures LoginDecided(m, old(State()), password, checkedAt, o)
      ensures LoginEffect(old(State()), State(), lifetime, writtenAt, newOtpHash, o)
    {
      if lockedUntil.Some? && lockedUntil.value > checkedAt {
        return AccountLocked(CeilMinutes(lockedUntil.value - checkedAt));
      }
      if !Truthy(passwordHash) {
        return PasswordNotSet;
      }
      if !m(password, passwordHash.value) {
        var newFailedAttempts := failedLoginAttempts + 1;
        if newFailedAttempts >= MAX_LOGIN_ATTEMPTS {
          lockedUntil := Some(writtenAt + LOCKOUT_MS);
        }
        failedLoginAttempts := newFailedAttempts;
        return WrongPassword;
      }
      if !emailVerified {
        return EmailNotVerified;
      }
      if otpEnabled {
        SendLoginOtp(lifetime, newOtpHash, writtenAt);
        return LoginOtpSent;
      }
      failedLoginAttempts := 0;
      lockedUntil := None;
      lastLoginAt := Some(writtenAt);
      return LoggedIn;
    }

    method VerifyOtpCode(m: Matcher, code: string, checkedAt: int, writtenAt: int) returns (o: Outcome)
      modifies this
      ensures (State(), o) == VerifyOtpStep(m, old(State()), VerifyOtp(code, checkedAt, writtenAt))
      ensures VerifyOtpDecided(m, old(State()), code, checkedAt, o)
      ensures VerifyOtpEffect(old(State()), State(), writtenAt, o)
    {
      if !Truthy(otpHash) {
        return NoOtpPending;
      }
      if otpFailedAttempts >= MAX_OTP_ATTEMPTS {
        return TooManyOtpAttempts;
      }
      if otpExpiresAt.Some? && otpExpiresAt.value < checkedAt {
        return OtpExpired;
      }
      if !m(code, otpHash.value) {
        otpFailedAttempts := otpFailedAttempts + 1;
        return WrongOtp;
      }
      otpHash := None;
      otpExpiresAt := None;
      otpFailedAttempts := 0;
      failedLoginAttempts := 0;
      lockedUntil := None;
      lastLoginAt := Some(writtenAt);
      return OtpAccepted;
    }

    method ResendOtpCode(lifetime: int, checkedAt: int, writtenAt: int, newOtpHash: string) returns (o: Outcome)
      modifies this
      ensures (State(), o) == ResendOtpStep(lifetime, old(State()), ResendOtp(checkedAt, writtenAt, newOtpHash))
      ensures ResendDecided(old(State()), State(), lifetime, ResendOtp(checkedAt, writtenAt, newOtpHash), o)
    {
      if otpExpiresAt.Some? {
        var otpSentAt := otpExpiresAt.value - lifetime;
        if checkedAt - otpSentAt < RESEND_COOLDOWN_MS {
          return ResendSuppressed;
        }
      }
      SendLoginOtp(lifetime, newOtpHash, writtenAt);
      return OtpResent;
    }

    method ResetForgottenPassword(token: string, newPasswordHash: string, confirmed: bool,
                                  checkedAt: int, writtenAt: int)
      returns (o: Outcome)
      modifies this
      ensures (State(), o) == ResetPasswordStep(old(State()),
                                ResetPassword(token, newPasswordHash, confirmed, checkedAt, writtenAt))
      ensures ResetDecided(old(State()), State(),
                           ResetPassword(token, newPasswordHash, confirmed, checkedAt, writtenAt), o)
    {
      if !confirmed {
        return PasswordMismatch;
      }
      if resetToken != Some(token) {
        return InvalidToken;
      }
      if resetTokenExpiresAt.Some? && resetTokenExpiresAt.value < checkedAt {
        return TokenExpired;
      }
      passwordHash := Some(newPasswordHash);
      resetToken := None;
      resetTokenExpiresAt := None;
      failedLoginAttempts := 0;
      lockedUntil := None;
      return PasswordReset;
    }
  }

  // ---------------------------------------------------------------- runs

  /** A run of sequential requests against one account. `states[i]` is the row before request `i`. */
  datatype Run = Run(states: seq<Account>, requests: seq<Request>, outcomes: seq<Outcome>)

  ghost predicate StepAt(m: Matcher, lifetime: int, run: Run, i: nat)
    requires i < |run.requests| == |run.outcomes| && |run.states| == |run.requests| + 1
  {
    (run.states[i + 1], run.outcomes[i]) == Apply(m, lifetime, run.states[i], run.requests[i])
  }

  ghost predicate ValidRun(m: Matcher, lifetime: int, run: Run) {
    && |run.outcomes| == |run.requests| && |run.states| == |run.requests| + 1
    && (forall i :: 0 <= i < |run.requests| ==> StepAt(m, lifetime, run, i))
    && (forall i :: 0 <= i < |run.requests| ==> run.requests[i].checkedAt <= run.requests[i].writtenAt)
    && (forall i, j :: 0 <= i < j < |run.requests| ==> run.requests[i].writtenAt <= run.requests[j].checkedAt)
  }

  predicate ClearsLockout(o: Outcome) {
    o == LoggedIn || o == OtpAccepted || o == PasswordReset
  }

  predicate IsSend(o: Outcome) {
    o == LoginOtpSent || o == OtpResent
  }

  predicate IsOtpComparison(o: Outcome) {
    o == WrongOtp || o == OtpAccepted
  }

  datatype Kind = WrongPasswords | Clearings | OtpComparisons | OtpAcceptances

  predicate OfKind(kind: Kind, o: Outcome) {
    match kind
    case WrongPasswords => o == WrongPassword
    case Clearings => ClearsLockout(o)
    case OtpComparisons => IsOtpComparison(o)
    case OtpAcceptances => o == OtpAccepted
  }

  /** How many of the outcomes at positions lo, ..., hi - 1 are of the kind. */
  function Count(kind: Kind, outcomes: seq<Outcome>, lo: nat, hi: nat): nat
    requires lo <= hi <= |outcomes|
  {
    if lo == hi then 0
    else Count(kind, outcomes, lo, hi - 1) + if OfKind(kind, outcomes[hi - 1]) then 1 else 0
  }

  // ---------------------------------------------------------------- lockout bound

  /** Wrong comparisons not yet paid for since time t0: `k` is the number of wrong passwords less five per
      clearing. */
  ghost predicate LockoutBudget(a: Account, k: int, t0: int, now: int) {
    && (k - a.failedLoginAttempts) * LOCKOUT_MS <= now - t0
    && (k - 5) * LOCKOUT_MS <= now - t0
    && (a.failedLoginAttempts >= MAX_LOGIN_ATTEMPTS ==>
          k <= 0 || (a.lockedUntil.Some? && t0 + (k - 4) * LOCKOUT_MS <= a.lockedUntil.value))
  }

  lemma LockoutBudgetStep(m: Matcher, lifetime: int, a: Account, r: Request, k: int, t0: int, now: int)
    requires LockoutBudget(a, k, t0, now) && t0 <= now <= r.checkedAt <= r.writtenAt
    ensures var (b, o) := Apply(m, lifetime, a, r);
            LockoutBudget(b, k + (if o == WrongPassword then 1 else 0) - (if ClearsLockout(o) then 5 else 0),
                          t0, r.checkedAt)
  {
  }

  lemma {:induction false} LockoutBudgetHolds(m: Matcher, lifetime: int, run: Run, i: nat, n: nat)
    requires ValidRun(m, lifetime, run) && i <= n < |run.requests|
    ensures LockoutBudget(run.states[n + 1], Unpaid(run.outcomes, i, n + 1),
                          run.requests[i].checkedAt, run.requests[n].checkedAt)
  {
    assert StepAt(m, lifetime, run, n);
    var t0 := run.requests[i].checkedAt;
    if n > i {
      LockoutBudgetHolds(m, lifetime, run, i, n - 1);
      InOrder(m, lifetime, run, i, n);
      BudgetAt(m, lifetime, run, i, n, t0, run.requests[n - 1].checkedAt);
    } else {
      BudgetAt(m, lifetime, run, i, n, t0, t0);
    }
  }

  lemma InOrder(m: Matcher, lifetime: int, run: Run, i: nat, n: nat)
    requires ValidRun(m, lifetime, run) && i < n < |run.requests|
    ensures run.requests[i].checkedAt <= run.requests[n - 1].checkedAt <= run.requests[n].checkedAt
  {
    assert run.requests[n - 1].checkedAt <= run.requests[n - 1].writtenAt <= run.requests[n].checkedAt;
    assert i < n - 1 ==> run.requests[i].checkedAt <= run.requests[i].writtenAt <= run.requests[n - 1].checkedAt;
  }

  /** The number of wrong passwords less five per clearing among the outcomes at positions lo, ..., hi - 1. */
  function Unpaid(outcomes: seq<Outcome>, lo: nat, hi: nat): int
    requires lo <= hi <= |outcomes|
  {
    Count(WrongPasswords, outcomes, lo, hi) - 5 * Count(Clearings, outcomes, lo, hi)
  }

  lemma BudgetAt(m: Matcher, lifetime: int, run: Run, i: nat, n: nat, t0: int, now: int)
    requires |run.requests| == |run.outcomes| && |run.states| == |run.requests| + 1
    requires i <= n < |run.requests| && StepAt(m, lifetime, run, n)
    requires t0 <= now <= run.requests[n].checkedAt <= run.requests[n].writtenAt
    requires LockoutBudget(run.states[n], Unpaid(run.outcomes, i, n), t0, now)
    ensures LockoutBudget(run.states[n + 1], Unpaid(run.outcomes, i, n + 1), t0, run.requests[n].checkedAt)
  {
    LockoutBudgetStep(m, lifetime, run.states[n], run.requests[n], Unpaid(run.outcomes, i, n), t0, now);
  }

  /** Lockout throttles guessing: within any stretch of any run, whatever the row was before, the wrong
      passwords compared number at most five per clearing event (login, accepted code, reset), five
      more, and one per full lockout period between the first and the last request of the stretch,
      although the failure counter is not cleared when a lock expires. */
  lemma LockoutBound(m: Matcher, lifetime: int, run: Run, i: nat, n: nat)
    requires ValidRun(m, lifetime, run) && i <= n < |run.requests|
    ensures Count(WrongPasswords, run.outcomes, i, n + 1)
         <= 5 * (1 + Count(Clearings, run.outcomes, i, n + 1))
            + (run.requests[n].checkedAt - run.requests[i].checkedAt) / (15 * 60000)
  {
    LockoutBudgetHolds(m, lifetime, run, i, n);
  }

  /** When the i-th wrong password of the slowest-throttled run is compared: five at once, then one per
      lockout period. */
  function TightTime(i: nat): int {
    if i < 5 then 0 else (i - 4) * LOCKOUT_MS
  }

  function TightState(a: Account, i: nat): Account {
    a.(failedLoginAttempts := i, lockedUntil := if i >= 5 then Some(TightTime(i - 1) + LOCKOUT_MS) else None)
  }

  function TightRun(a: Account, password: string, n: nat): Run {
    Run(seq(n + 6, i requires 0 <= i < n + 6 => TightState(a, i)),
        seq(n + 5, i requires 0 <= i < n + 5 => Login(password, TightTime(i), TightTime(i), "")),
        seq(n + 5, i requires 0 <= i < n + 5 => WrongPassword))
  }

  lemma TightTimesAscend(i: nat, j: nat)
    requires i <= j
    ensures TightTime(i) <= TightTime(j)
  {
  }

  lemma {:induction false} AllOfKind(kind: Kind, outcomes: seq<Outcome>, n: nat)
    requires n <= |outcomes| && forall i :: 0 <= i < |outcomes| ==> OfKind(kind, outcomes[i])
    ensures Count(kind, outcomes, 0, n) == n
  {
    if n > 0 { AllOfKind(kind, outcomes, n - 1); }
  }

  /** The lockout bound cannot be improved: for every n there is a run without any clearing event that
      lasts exactly n lockout periods and compares exactly 5 + n wrong passwords. */
  lemma LockoutBoundIsTight(m: Matcher, lifetime: int, a: Account, password: string, n: nat) returns (run: Run)
    requires Truthy(a.passwordHash) && !m(password, a.passwordHash.value)
    requires a.failedLoginAttempts == 0 && a.lockedUntil == None
    ensures ValidRun(m, lifetime, run) && |run.requests| == n + 5 && run.states[0] == a
    ensures Count(WrongPasswords, run.outcomes, 0, n + 5) == n + 5
    ensures forall i :: 0 <= i < n + 5 ==> !ClearsLockout(run.outcomes[i])
    ensures run.requests[n + 4].checkedAt - run.requests[0].checkedAt == n * LOCKOUT_MS
  {
    run := TightRun(a, password, n);
    forall i: nat | i < n + 5 ensures StepAt(m, lifetime, run, i) {
      assert run.requests[i] == Login(password, TightTime(i), TightTime(i), "");
      assert run.states[i] == TightState(a, i) && run.states[i + 1] == TightState(a, i + 1);
      assert i >= 5 ==> TightTime(i) == TightTime(i - 1) + LOCKOUT_MS;
    }
    forall i, j | 0 <= i < j < n + 5 ensures run.requests[i].writtenAt <= run.requests[j].checkedAt {
      TightTimesAscend(i, j);
    }
    AllOfKind(WrongPasswords, run.outcomes, n + 5);
  }

  // ---------------------------------------------------------------- one-time passwords

  ghost predicate NoSendWithin(run: Run, lo: nat, hi: nat) {
    forall k :: lo <= k < hi && k < |run.outcomes| ==> !IsSend(run.outcomes[k])
  }

  ghost predicate NoAcceptanceWithin(run: Run, lo: nat, hi: nat) {
    forall k :: lo <= k < hi && k < |run.outcomes| ==> run.outcomes[k] != OtpAccepted
  }

  lemma SendEffect(m: Matcher, lifetime: int, a: Account, r: Request)
    requires IsSend(Apply(m, lifetime, a, r).1)
    ensures (r.Login? || r.ResendOtp?)
    ensures Apply(m, lifetime, a, r).0 == OtpIssued(a, lifetime, r.newOtpHash, r.writtenAt)
  {
  }

  /** The state of the code issued by request `i`, `compared` comparisons later. */
  ghost predicate OtpState(a: Account, lifetime: int, issue: Request, compared: nat, accepted: nat)
    requires issue.Login? || issue.ResendOtp?
  {
    if accepted == 0 then
      && a.otpHash == Some(issue.newOtpHash) && a.otpExpiresAt == Some(issue.writtenAt + lifetime)
      && a.otpFailedAttempts == compared <= MAX_OTP_ATTEMPTS
    else accepted == 1 && a.otpHash == None && compared <= MAX_OTP_ATTEMPTS
  }

  lemma {:induction false} OtpStateHolds(m: Matcher, lifetime: int, run: Run, i: nat, j: nat)
    requires ValidRun(m, lifetime, run) && i < j <= |run.requests|
    requires IsSend(run.outcomes[i]) && NoSendWithin(run, i + 1, j)
    ensures run.requests[i].Login? || run.requests[i].ResendOtp?
    ensures OtpState(run.states[j], lifetime, run.requests[i],
                     Count(OtpComparisons, run.outcomes, i + 1, j), Count(OtpAcceptances, run.outcomes, i + 1, j))
  {
    assert StepAt(m, lifetime, run, i) && StepAt(m, lifetime, run, j - 1);
    SendEffect(m, lifetime, run.states[i], run.requests[i]);
    if j > i + 1 {
      OtpStateHolds(m, lifetime, run, i, j - 1);
      assert !IsSend(run.outcomes[j - 1]);
      OtpStateStep(m, lifetime, run.states[j - 1], run.requests[j - 1], run.requests[i],
                   Count(OtpComparisons, run.outcomes, i + 1, j - 1),
                   Count(OtpAcceptances, run.outcomes, i + 1, j - 1));
    }
  }

  lemma OtpStateStep(m: Matcher, lifetime: int, a: Account, r: Request, issue: Request, compared: nat, accepted: nat)
    requires issue.Login? || issue.ResendOtp?
    requires OtpState(a, lifetime, issue, compared, accepted) && !IsSend(Apply(m, lifetime, a, r).1)
    ensures var (b, o) := Apply(m, lifetime, a, r);
            OtpState(b, lifetime, issue, compared + (if IsOtpComparison(o) then 1 else 0),
                     accepted + (if o == OtpAccepted then 1 else 0))
  {
  }

  lemma AcceptedInTime(m: Matcher, lifetime: int, run: Run, i: nat, k: nat)
    requires ValidRun(m, lifetime, run) && i < k < |run.requests|
    requires IsSend(run.outcomes[i]) && NoSendWithin(run, i + 1, k) && run.outcomes[k] == OtpAccepted
    ensures (run.requests[i].Login? || run.requests[i].ResendOtp?) && run.requests[k].VerifyOtp?
    ensures m(run.requests[k].code, run.requests[i].newOtpHash)
    ensures run.requests[k].checkedAt <= run.requests[i].writtenAt + lifetime
  {
    OtpStateHolds(m, lifetime, run, i, k);
    assert StepAt(m, lifetime, run, k);
  }

  /** Until the next send, an issued code is compared at most three times in all, is accepted at most
      once, and is accepted only on a matching code and not after it expires. */
  lemma IssuedOtpIsLimited(m: Matcher, lifetime: int, run: Run, i: nat, j: nat)
    requires ValidRun(m, lifetime, run) && i < j <= |run.requests|
    requires IsSend(run.outcomes[i]) && NoSendWithin(run, i + 1, j)
    ensures run.requests[i].Login? || run.requests[i].ResendOtp?
    ensures Count(OtpComparisons, run.outcomes, i + 1, j) <= 3
    ensures Count(OtpAcceptances, run.outcomes, i + 1, j) <= 1
    ensures forall k :: i < k < j && run.outcomes[k] == OtpAccepted ==>
              && run.requests[k].VerifyOtp?
              && m(run.requests[k].code, run.requests[i].newOtpHash)
              && run.requests[k].checkedAt <= run.requests[i].writtenAt + lifetime
  {
    OtpStateHolds(m, lifetime, run, i, j);
    forall k | i < k < j && run.outcomes[k] == OtpAccepted
      ensures run.requests[k].VerifyOtp?
      ensures m(run.requests[k].code, run.requests[i].newOtpHash)
      ensures run.requests[k].checkedAt <= run.requests[i].writtenAt + lifetime
    {
      AcceptedInTime(m, lifetime, run, i, k);
    }
  }

  lemma {:induction false} PendingOtpHasSend(m: Matcher, lifetime: int, run: Run, k: nat) returns (i: nat)
    requires ValidRun(m, lifetime, run) && k < |run.states|
    requires run.states[0].otpHash == None && Truthy(run.states[k].otpHash)
    ensures i < k && IsSend(run.outcomes[i])
    ensures NoSendWithin(run, i + 1, k) && NoAcceptanceWithin(run, i + 1, k)
  {
    assert StepAt(m, lifetime, run, k - 1);
    if IsSend(run.outcomes[k - 1]) {
      i := k - 1;
    } else {
      i := PendingOtpHasSend(m, lifetime, run, k - 1);
    }
  }

  /** Every accepted code belongs to exactly one issue: there was a send before it with no other send
      and no acceptance in between, the code matches the hash of that send, it has not expired, and
      at most two wrong codes were compared before it. So no code is accepted twice. */
  lemma AcceptanceTracesToSend(m: Matcher, lifetime: int, run: Run, k: nat) returns (i: nat)
    requires ValidRun(m, lifetime, run) && k < |run.requests|
    requires run.states[0].otpHash == None && run.outcomes[k] == OtpAccepted
    ensures i < k && IsSend(run.outcomes[i])
    ensures NoSendWithin(run, i + 1, k) && NoAcceptanceWithin(run, i + 1, k)
    ensures (run.requests[i].Login? || run.requests[i].ResendOtp?) && run.requests[k].VerifyOtp?
    ensures m(run.requests[k].code, run.requests[i].newOtpHash)
    ensures run.requests[k].checkedAt <= run.requests[i].writtenAt + lifetime
    ensures Count(OtpComparisons, run.outcomes, i + 1, k) <= 2
  {
    assert StepAt(m, lifetime, run, k);
    i := PendingOtpHasSend(m, lifetime, run, k);
    AcceptedInTime(m, lifetime, run, i, k);
    OtpStateHolds(m, lifetime, run, i, k + 1);
  }

  /** The last login changes only when a login without a second factor succeeds, or a code is accepted. */
  lemma LastLoginChanges(m: Matcher, lifetime: int, run: Run, k: nat)
    requires ValidRun(m, lifetime, run) && k < |run.requests|
    requires run.states[k + 1].lastLoginAt != run.states[k].lastLoginAt
    ensures run.states[k + 1].lastLoginAt == Some(run.requests[k].writtenAt)
    ensures run.outcomes[k] == OtpAccepted || (run.outcomes[k] == LoggedIn && !run.states[k].otpEnabled)
  {
    assert StepAt(m, lifetime, run, k);
    var r := run.requests[k];
    match r {
      case Login(_, _, _, _) => LoginOutcome(m, lifetime, run.states[k], r);
      case VerifyOtp(_, _, _) => VerifyOtpOutcome(m, lifetime, run.states[k], r);
      case ResendOtp(_, _, _) => ResendOutcome(m, lifetime, run.states[k], r);
      case ResetPassword(_, _, _, _, _) => ResetOutcome(m, lifetime, run.states[k], r);
      case OtherChange(_, _, _, _, _, _, _) =>
    }
  }

  /** No login without the second factor: while one-time passwords are enabled, the last login changes
      only when a code is accepted that an earlier request sent, unexpired and not yet used. */
  lemma OtpGuardsLogin(m: Matcher, lifetime: int, run: Run, k: nat) returns (i: nat)
    requires ValidRun(m, lifetime, run) && k < |run.requests|
    requires run.states[0].otpHash == None && run.states[k].otpEnabled
    requires run.states[k + 1].lastLoginAt != run.states[k].lastLoginAt
    ensures run.outcomes[k] == OtpAccepted && run.requests[k].VerifyOtp?
    ensures i < k && IsSend(run.outcomes[i])
    ensures NoSendWithin(run, i + 1, k) && NoAcceptanceWithin(run, i + 1, k)
    ensures run.requests[i].Login? || run.requests[i].ResendOtp?
    ensures m(run.requests[k].code, run.requests[i].newOtpHash)
    ensures run.requests[k].checkedAt <= run.requests[i].writtenAt + lifetime
  {
    LastLoginChanges(m, lifetime, run, k);
    i := AcceptanceTracesToSend(m, lifetime, run, k);
  }

  lemma {:induction false} ExpiryRemembersSend(m: Matcher, lifetime: int, run: Run, i: nat, j: nat)
    requires ValidRun(m, lifetime, run) && i < j <= |run.requests|
    requires IsSend(run.outcomes[i]) && NoAcceptanceWithin(run, i + 1, j)
    ensures run.states[j].otpExpiresAt.Some?
    ensures run.requests[i].writtenAt <= run.states[j].otpExpiresAt.value - lifetime
  {
    assert StepAt(m, lifetime, run, j - 1);
    if j == i + 1 {
      SendEffect(m, lifetime, run.states[i], run.requests[i]);
    } else {
      ExpiryRemembersSend(m, lifetime, run, i, j - 1);
      if IsSend(run.outcomes[j - 1]) {
        SendEffect(m, lifetime, run.states[j - 1], run.requests[j - 1]);
      }
    }
  }

  /** Codes sent by resendOtp keep a distance: a resend comes at least 60 seconds after any earlier
      send unless a code was accepted in between, for every lifetime, because expiry minus lifetime
      recovers the time of the last send. */
  lemma ResendCooldown(m: Matcher, lifetime: int, run: Run, i: nat, j: nat)
    requires ValidRun(m, lifetime, run) && i < j < |run.requests|
    requires IsSend(run.outcomes[i]) && run.outcomes[j] == OtpResent
    requires NoAcceptanceWithin(run, i + 1, j)
    ensures run.requests[j].writtenAt - run.requests[i].writtenAt >= 60000
  {
    assert StepAt(m, lifetime, run, j);
    ExpiryRemembersSend(m, lifetime, run, i, j);
  }

  // ---------------------------------------------------------------- password reset

  /** No request from lo to hi - 1 stores another password. */
  ghost predicate PasswordKeptWithin(run: Run, lo: nat, hi: nat) {
    forall k :: lo <= k < hi && k < |run.requests| && k < |run.outcomes| ==>
      !run.requests[k].OtherChange? && run.outcomes[k] != PasswordReset
  }

  lemma {:induction false} ResetPasswordStays(m: Matcher, lifetime: int, run: Run, i: nat, j: nat)
    requires ValidRun(m, lifetime, run) && i < j <= |run.requests|
    requires run.outcomes[i] == PasswordReset && PasswordKeptWithin(run, i + 1, j)
    ensures run.requests[i].ResetPassword?
    ensures run.states[j].passwordHash == Some(run.requests[i].newPasswordHash)
  {
    assert StepAt(m, lifetime, run, i) && StepAt(m, lifetime, run, j - 1);
    if j > i + 1 { ResetPasswordStays(m, lifetime, run, i, j - 1); }
  }

  /** From a reset until the password changes again, exactly the passwords that match the new hash pass. */
  lemma ResetPasswordRules(m: Matcher, lifetime: int, run: Run, i: nat, j: nat)
    requires ValidRun(m, lifetime, run) && i < j < |run.requests| && run.requests[j].Login?
    requires run.outcomes[i] == PasswordReset && PasswordKeptWithin(run, i + 1, j)
    ensures run.requests[i].ResetPassword?
    ensures run.requests[i].newPasswordHash != "" && !LockedAt(run.states[j], run.requests[j].checkedAt) ==>
              (run.outcomes[j] == WrongPassword
               <==> !m(run.requests[j].password, run.requests[i].newPasswordHash))
  {
    ResetPasswordStays(m, lifetime, run, i, j);
    assert StepAt(m, lifetime, run, j);
    LoginOutcome(m, lifetime, run.states[j], run.requests[j]);
  }

  /** Between i and j some request issued the reset token. */
  ghost predicate TokenIssuedWithin(run: Run, token: string, i: nat, j: nat) {
    exists k :: i <= k < j && k < |run.requests| && run.requests[k].OtherChange?
                && run.requests[k].resetToken == Some(token)
  }

  lemma {:induction false} TokenNeedsIssue(m: Matcher, lifetime: int, run: Run, i: nat, j: nat, token: string)
    requires ValidRun(m, lifetime, run) && i <= j < |run.states|
    requires run.states[i].resetToken == None && run.states[j].resetToken == Some(token)
    ensures TokenIssuedWithin(run, token, i, j)
  {
    assert StepAt(m, lifetime, run, j - 1);
    if run.states[j - 1].resetToken == Some(token) {
      TokenNeedsIssue(m, lifetime, run, i, j - 1, token);
    }
  }

  /** A reset token works once: between two password resets with the same token it was issued again. */
  lemma ResetTokenWorksOnce(m: Matcher, lifetime: int, run: Run, i: nat, j: nat)
    requires ValidRun(m, lifetime, run) && i < j < |run.requests|
    requires run.outcomes[i] == PasswordReset && run.outcomes[j] == PasswordReset
    ensures run.requests[i].ResetPassword? && run.requests[j].ResetPassword?
    ensures TokenIssuedWithin(run, run.requests[j].token, i + 1, j)
  {
    assert StepAt(m, lifetime, run, i) && StepAt(m, lifetime, run, j);
    TokenNeedsIssue(m, lifetime, run, i + 1, j, run.requests[j].token);
  }
}
