/**
 * The four ways to finish signing in: password, emailed code, authenticator code, backup code.
 *
 * `LoginActions` is the server side of the forms, writing the browser's cookie jar.  What the auth
 * server and the status lookups answer is an input.  `Attempt` says what one submission should do to
 * the jar and `Effects` in which order it acts; the methods do it branch by branch, as the actions
 * are written.
 */
module SignIn {
  import opened SetCookies
  import opened Text
  import opened Basics

  datatype Method = Password | EmailCode | Authenticator | BackupCode

  datatype Form = Form(identifier: string, secret: string, next: Option<string>, trustDevice: bool)

  /** What a reply's body says.  The text `null` is JSON too. */
  datatype Body = NotJson | JsonNull | Json(twoFactorRedirect: bool, unverified: bool)

  /** The auth server's reply: its status, its body, and Set-Cookie. */
  datatype Upstream = Unreachable | Reply(status: int, body: Body, setCookie: Option<string>)

  /** When the two-factor prompt was last shown; a stored text may not be a date. */
  datatype Prompted = Never | At(ms: int) | Garbled

  /** A per-app setting; parts that are missing or of the wrong type are `None`. */
  datatype AppTrust = AppTrust(days: Option<real>, promptEnabled: Option<bool>)

  /** The lookups made after a sign-in; `None` is one that failed.  An unreachable consent check
      counts as nothing outstanding. */
  datatype Lookups = Lookups(
    outstanding: nat, enrolled: Option<bool>, prompted: Option<Prompted>, app: Option<AppTrust>, now: int)

  datatype Site = Site(
    sessionName: string,
    twoFactorName: string,
    trustName: string,
    secureDefault: bool,
    readers: Readers,
    validateNext: string -> Option<string>,
    clientIdOf: string -> Option<string>,
    systemTrustDays: real,
    systemPrompt: bool)

  /** A cookie as it is written to the browser. */
  datatype StoredCookie = StoredCookie(
    value: string, httpOnly: bool, secure: bool, sameSite: Option<SameSite>, path: string,
    domain: Option<string>, maxAge: Option<real>, expires: Option<int>)

  /** The last cookie written under each of the three names. */
  datatype Jar = Jar(session: Option<StoredCookie>, twoFactor: Option<StoredCookie>, trust: Option<StoredCookie>)

  datatype Error =
    | MissingCredentials | InvalidCredentials | InvalidCode | TooManyRequests | ServerUnavailable | Inactive
    | Unverified

  datatype Target =
    | Consent(clientId: string, next: Option<string>)
    | TwoFactorPrompt(next: Option<string>)
    | Next(url: string)
    | Users

  /** How an action ends; `Threw` is an exception nobody catches. */
  datatype Outcome = Rejected(error: Error) | ChallengedForCode | Redirected(to: Target) | Threw

  // ----- What a submission should do

  predicate IsOk(r: Upstream) { r.Reply? && 200 <= r.status <= 299 }

  predicate HasCredentials(m: Method, f: Form) {
    f.secret != "" && (IsFirstFactor(m) ==> f.identifier != "")
  }

  function CookieNamed(site: Site, r: Upstream, name: string): Option<ParsedCookie>
    requires r.Reply?
  {
    if r.setCookie.None? || r.setCookie.value == "" then None else ParseHeader(r.setCookie.value, name, site.readers)
  }

  predicate SaysUnverified(r: Upstream) { r.Reply? && r.body.Json? && r.body.unverified }

  predicate SaysTwoFactor(r: Upstream) { r.Reply? && r.body.Json? && r.body.twoFactorRedirect }

  predicate IsFirstFactor(m: Method) { m in {Password, EmailCode} }

  /** The auth server asks for a second factor instead of opening a session. */
  predicate Challenged(m: Method, f: Form, r: Upstream) {
    HasCredentials(m, f) && IsOk(r) && IsFirstFactor(m) && SaysTwoFactor(r)
  }

  /** The body is looked into outside the block that catches its parse error, and `null` has no inside. */
  predicate Crashes(m: Method, f: Form, r: Upstream) {
    HasCredentials(m, f) && IsOk(r) && IsFirstFactor(m) && r.body.JsonNull?
  }

  /** The auth server opened a session and its cookie can be read. */
  predicate Approved(site: Site, m: Method, f: Form, r: Upstream) {
    && HasCredentials(m, f) && IsOk(r) && !Challenged(m, f, r) && !Crashes(m, f, r)
    && CookieNamed(site, r, site.sessionName).Some?
  }

  function Or<T>(o: Option<T>, default: T): T {
    match o
    case Some(v) => v
    case None => default
  }

  function Stored(site: Site, p: ParsedCookie): StoredCookie {
    StoredCookie(p.value, p.httpOnly, p.secure || site.secureDefault, Some(Or(p.sameSite, Lax)), Or(p.path, "/"),
                 p.domain, p.maxAge, p.expires)
  }

  /** A cookie passed on as it came, but for its domain. */
  function PassedOn(p: ParsedCookie): StoredCookie {
    StoredCookie(p.value, p.httpOnly, p.secure, p.sameSite, Or(p.path, "/"), None, p.maxAge, p.expires)
  }

  function SafeNext(site: Site, f: Form): Option<string> {
    match f.next
    case Some(raw) => site.validateNext(raw)
    case None => None
  }

  /** The app a validated destination names, if it names one. */
  function ClientId(site: Site, next: Option<string>): Option<string> {
    if next.None? || next.value == "" then None
    else
      match site.clientIdOf(next.value)
      case Some(id) => if id == "" then None else Some(id)
      case None => None
  }

  function AppDays(site: Site, next: Option<string>, l: Lookups): real {
    match (ClientId(site, next), l.app)
    case (Some(_), Some(AppTrust(Some(days), _))) => if days > 0.0 then days else site.systemTrustDays
    case _ => site.systemTrustDays
  }

  function AppPrompt(site: Site, next: Option<string>, l: Lookups): bool {
    match (ClientId(site, next), l.app)
    case (Some(_), Some(AppTrust(_, Some(enabled)))) => enabled
    case _ => site.systemPrompt
  }

  const MS_PER_DAY: real := 86400000.0
  const SECONDS_PER_DAY: real := 86400.0

  /** Both lookups answered, the user is not enrolled, prompting is on, and the last prompt, if any,
      is more than the interval ago. */
  predicate PromptIsDue(site: Site, next: Option<string>, l: Lookups) {
    && l.enrolled == Some(false) && l.prompted.Some?
    && AppPrompt(site, next, l)
    && match l.prompted.value
       case Never => true
       case At(ms) => (l.now - ms) as real > AppDays(site, next, l) * MS_PER_DAY
       case Garbled => false
  }

  function Destination(site: Site, m: Method, f: Form, l: Lookups): Target {
    var next := SafeNext(site, f);
    if ClientId(site, next).Some? && l.outstanding > 0 then Consent(ClientId(site, next).value, next)
    else if IsFirstFactor(m) && PromptIsDue(site, next, l) then TwoFactorPrompt(next)
    else if next.Some? then Next(next.value)
    else Users
  }

  /** Why a submission that opened no session and met no challenge failed. */
  function Reason(m: Method, f: Form, r: Upstream): Error {
    if !HasCredentials(m, f) then (if m == Password then MissingCredentials else InvalidCode)
    else if r.Unreachable? || IsOk(r) then ServerUnavailable
    else if r.status == 429 then TooManyRequests
    else if r.status == 403 && IsFirstFactor(m) then (if SaysUnverified(r) then Unverified else Inactive)
    else if m == Password then InvalidCredentials
    else InvalidCode
  }

  function ForwardTwoFactor(site: Site, jar: Jar, r: Upstream): Jar
    requires r.Reply?
  {
    match CookieNamed(site, r, site.twoFactorName)
    case Some(p) => jar.(twoFactor := Some(PassedOn(p)))
    case None => jar
  }

  /** The trust cookie lives as long as the app says, whatever lifetime it came with. */
  function ForwardTrust(site: Site, jar: Jar, r: Upstream, days: real): Jar
    requires r.Reply?
  {
    match CookieNamed(site, r, site.trustName)
    case Some(p) => jar.(trust := Some(PassedOn(p).(maxAge := Some(days * SECONDS_PER_DAY), expires := None)))
    case None => jar
  }

  /** The jar after an approved submission. */
  function SignedIn(site: Site, jar: Jar, m: Method, f: Form, r: Upstream, l: Lookups): Jar
    requires Approved(site, m, f, r)
  {
    var signedIn := jar.(session := Some(Stored(site, CookieNamed(site, r, site.sessionName).value)));
    if IsFirstFactor(m) then signedIn
    else
      var cleared := ForwardTwoFactor(site, signedIn, r);
      if f.trustDevice then ForwardTrust(site, cleared, r, AppDays(site, SafeNext(site, f), l)) else cleared
  }

  function OutcomeOf(site: Site, m: Method, f: Form, r: Upstream, l: Lookups): Outcome {
    if Challenged(m, f, r) then ChallengedForCode
    else if Crashes(m, f, r) then Threw
    else if Approved(site, m, f, r) then Redirected(Destination(site, m, f, l))
    else Rejected(Reason(m, f, r))
  }

  /** One submission: what becomes of the jar, and how the action ends. */
  function Attempt(site: Site, jar: Jar, m: Method, f: Form, r: Upstream, l: Lookups): (Jar, Outcome) {
    var after :=
      if Challenged(m, f, r) then ForwardTwoFactor(site, jar, r)
      else if Approved(site, m, f, r) then SignedIn(site, jar, m, f, r, l)
      else jar;
    (after, OutcomeOf(site, m, f, r, l))
  }

  // ----- In which order it acts

  /** What an action does that others can see: the request with the credentials, the cookies written,
      the lookups made on the user's behalf, and the end. */
  datatype Effect =
    | Submitted(how: Method)
    | Posted
    | WroteSession | WroteTwoFactor | WroteTrust
    | AskedConsent | AskedState | AskedApp
    | Ended(outcome: Outcome)

  function TwoFactorEffects(site: Site, r: Upstream): seq<Effect>
    requires r.Reply?
  {
    if CookieNamed(site, r, site.twoFactorName).Some? then [WroteTwoFactor] else []
  }

  function AppEffects(site: Site, next: Option<string>): seq<Effect> {
    if ClientId(site, next).Some? then [AskedApp] else []
  }

  function TrustEffects(site: Site, f: Form, r: Upstream): seq<Effect>
    requires r.Reply?
  {
    AppEffects(site, SafeNext(site, f)) + if CookieNamed(site, r, site.trustName).Some? then [WroteTrust] else []
  }

  function ConsentEffects(site: Site, next: Option<string>): seq<Effect> {
    if ClientId(site, next).Some? then [AskedConsent] else []
  }

  predicate NeedsConsent(site: Site, next: Option<string>, l: Lookups) {
    ClientId(site, next).Some? && l.outstanding > 0
  }

  function LeaveEffects(site: Site, m: Method, f: Form, l: Lookups): seq<Effect> {
    var next := SafeNext(site, f);
    ConsentEffects(site, next)
    + if IsFirstFactor(m) && !NeedsConsent(site, next, l) then [AskedState] + AppEffects(site, next) else []
  }

  function SecondFactorEffects(site: Site, m: Method, f: Form, r: Upstream): seq<Effect>
    requires r.Reply?
  {
    if IsFirstFactor(m) then []
    else TwoFactorEffects(site, r) + if f.trustDevice then TrustEffects(site, f, r) else []
  }

  function ReplyEffects(site: Site, m: Method, f: Form, r: Upstream, l: Lookups): seq<Effect> {
    if Challenged(m, f, r) then TwoFactorEffects(site, r)
    else if Approved(site, m, f, r) then
      [WroteSession] + SecondFactorEffects(site, m, f, r) + LeaveEffects(site, m, f, l)
    else []
  }

  function Effects(site: Site, m: Method, f: Form, r: Upstream, l: Lookups): seq<Effect> {
    [Submitted(m)]
    + (if HasCredentials(m, f) then [Posted] + ReplyEffects(site, m, f, r, l) else [])
    + [Ended(OutcomeOf(site, m, f, r, l))]
  }

  lemma Regroup<T>(log: seq<T>, a: seq<T>, b: seq<T>, c: seq<T>)
    ensures log + (a + b + c) == log + a + b + c
  {
  }

  lemma Whole<T>(log: seq<T>, x: T, y: T, reply: seq<T>, end: T)
    ensures log + ([x] + ([y] + reply) + [end]) == log + [x] + [y] + reply + [end]
    ensures log + ([x] + [] + [end]) == log + [x] + [end]
  {
  }

  // ----- The actions

  class LoginActions {
    const site: Site
    var jar: Jar
    ghost var log: seq<Effect>

    constructor (site: Site, jar: Jar)
      ensures this.site == site && this.jar == jar && log == []
    {
      this.site, this.jar, log := site, jar, [];
    }

    method ReadCookie(r: Upstream, name: string) returns (p: Option<ParsedCookie>)
      requires r.Reply?
      ensures p == CookieNamed(site, r, name)
    {
      if r.setCookie.None? || r.setCookie.value == "" {
        return None;
      }
      p := ParseSessionCookie(r.setCookie.value, name, site.readers);
    }

    method ForwardSessionCookie(r: Upstream) returns (ok: bool)
      requires r.Reply?
      modifies this
      ensures ok == CookieNamed(site, r, site.sessionName).Some?
      ensures jar ==
        if ok then old(jar).(session := Some(Stored(site, CookieNamed(site, r, site.sessionName).value))) else old(jar)
      ensures log == old(log) + if ok then [WroteSession] else []
    {
      var parsed := ReadCookie(r, site.sessionName);
      if parsed.None? {
        return false;
      }
      jar := jar.(session := Some(Stored(site, parsed.value)));
      log := log + [WroteSession];
      return true;
    }

    method ForwardTwoFactorCookie(r: Upstream)
      requires r.Reply?
      modifies this
      ensures jar == ForwardTwoFactor(site, old(jar), r) && log == old(log) + TwoFactorEffects(site, r)
    {
      var parsed := ReadCookie(r, site.twoFactorName);
      if parsed.Some? {
        jar := jar.(twoFactor := Some(PassedOn(parsed.value)));
        log := log + [WroteTwoFactor];
      }
    }

    /** The trust cookie, with the lifetime the app named by the validated destination asks for. */
    method ApplyPerAppTrustCookie(f: Form, r: Upstream, l: Lookups)
      requires r.Reply?
      modifies this
      ensures jar == ForwardTrust(site, old(jar), r, AppDays(site, SafeNext(site, f), l))
      ensures log == old(log) + TrustEffects(site, f, r)
    {
      var resolvedDays := site.systemTrustDays;
      if ClientId(site, SafeNext(site, f)).Some? {
        log := log + [AskedApp];
        if l.app.Some? && l.app.value.days.Some? && l.app.value.days.value > 0.0 {
          resolvedDays := l.app.value.days.value;
        }
      }
      var parsed := ReadCookie(r, site.trustName);
      if parsed.Some? {
        var maxAge := resolvedDays * SECONDS_PER_DAY;
        jar := jar.(trust := Some(PassedOn(parsed.value).(maxAge := Some(maxAge), expires := None)));
        log := log + [WroteTrust];
      }
    }

    /** The consent interstitial to go to, if there is one. */
    method MaybeRedirectToConsent(next: Option<string>, l: Lookups) returns (to: Option<Target>)
      modifies this`log
      ensures to == if NeedsConsent(site, next, l) then Some(Consent(ClientId(site, next).value, next)) else None
      ensures log == old(log) + ConsentEffects(site, next)
    {
      var clientId := ClientId(site, next);
      if clientId.None? {
        return None;
      }
      log := log + [AskedConsent];
      if l.outstanding == 0 {
        return None;
      }
      return Some(Consent(clientId.value, next));
    }

    /** The two-factor prompt to go to, if it is due. */
    method MaybeRedirectToTwoFactorPrompt(next: Option<string>, l: Lookups) returns (to: Option<Target>)
      modifies this`log
      ensures to == if PromptIsDue(site, next, l) then Some(TwoFactorPrompt(next)) else None
      ensures log == old(log) + ([AskedState] + AppEffects(site, next))
    {
      log := log + [AskedState];
      var twoFactorEnabled, promptedAt, stateKnown := false, Never, false;
      if l.enrolled.Some? && l.prompted.Some? {
        twoFactorEnabled, promptedAt, stateKnown := l.enrolled.value, l.prompted.value, true;
      }
      var intervalDays, promptEnabled := site.systemTrustDays, site.systemPrompt;
      if ClientId(site, next).Some? {
        log := log + [AskedApp];
        if l.app.Some? {
          var app := l.app.value;
          if app.days.Some? && app.days.value > 0.0 {
            intervalDays := app.days.value;
          }
          if app.promptEnabled.Some? {
            promptEnabled := app.promptEnabled.value;
          }
        }
      }
      if !stateKnown || !promptEnabled || twoFactorEnabled {
        return None;
      }
      match promptedAt
      case Never =>
        return Some(TwoFactorPrompt(next));
      case Garbled =>
        return None;
      case At(ms) =>
        if (l.now - ms) as real > intervalDays * MS_PER_DAY {
          return Some(TwoFactorPrompt(next));
        }
        return None;
    }

    /** What sign-in does once the session is open. */
    method Leave(m: Method, f: Form, l: Lookups) returns (o: Outcome)
      modifies this`log
      ensures o == Redirected(Destination(site, m, f, l))
      ensures log == old(log) + LeaveEffects(site, m, f, l) + [Ended(o)]
    {
      var next := SafeNext(site, f);
      var consent := MaybeRedirectToConsent(next, l);
      if consent.Some? {
        o := End(Redirected(consent.value));
        return;
      }
      if m == Password || m == EmailCode {
        var prompt := MaybeRedirectToTwoFactorPrompt(next, l);
        if prompt.Some? {
          o := End(Redirected(prompt.value));
          return;
        }
      }
      o := End(Redirected(if next.Some? then Next(next.value) else Users));
    }

    method End(outcome: Outcome) returns (o: Outcome)
      modifies this`log
      ensures o == outcome && log == old(log) + [Ended(o)]
    {
      log := log + [Ended(outcome)];
      o := outcome;
    }

    method SignInWithPassword(f: Form, r: Upstream, l: Lookups) returns (o: Outcome)
      modifies this
      ensures (jar, o) == Attempt(site, old(jar), Password, f, r, l)
      ensures log == old(log) + Effects(site, Password, f, r, l)
    {
      Whole(log, Submitted(Password), Posted, ReplyEffects(site, Password, f, r, l),
            Ended(OutcomeOf(site, Password, f, r, l)));
      log := log + [Submitted(Password)];
      if f.identifier == "" || f.secret == "" {
        o := End(Rejected(MissingCredentials));
        return;
      }
      log := log + [Posted];
      if r.Unreachable? {
        o := End(Rejected(ServerUnavailable));
        return;
      }
      if !(200 <= r.status <= 299) {
        if r.status == 401 {
          o := End(Rejected(InvalidCredentials));
        } else if r.status == 403 {
          o := End(Rejected(if SaysUnverified(r) then Unverified else Inactive));
        } else if r.status == 429 {
          o := End(Rejected(TooManyRequests));
        } else {
          o := End(Rejected(InvalidCredentials));
        }
        return;
      }
      o := FinishFirstFactor(Password, f, r, l);
    }

    method VerifyOtp(f: Form, r: Upstream, l: Lookups) returns (o: Outcome)
      modifies this
      ensures (jar, o) == Attempt(site, old(jar), EmailCode, f, r, l)
      ensures log == old(log) + Effects(site, EmailCode, f, r, l)
    {
      Whole(log, Submitted(EmailCode), Posted, ReplyEffects(site, EmailCode, f, r, l),
            Ended(OutcomeOf(site, EmailCode, f, r, l)));
      log := log + [Submitted(EmailCode)];
      if f.identifier == "" || f.secret == "" {
        o := End(Rejected(InvalidCode));
        return;
      }
      log := log + [Posted];
      if r.Unreachable? {
        o := End(Rejected(ServerUnavailable));
        return;
      }
      if !(200 <= r.status <= 299) {
        if r.status == 403 {
          o := End(Rejected(if SaysUnverified(r) then Unverified else Inactive));
        } else if r.status == 429 {
          o := End(Rejected(TooManyRequests));
        } else {
          o := End(Rejected(InvalidCode));
        }
        return;
      }
      o := FinishFirstFactor(EmailCode, f, r, l);
    }

    /** A 2xx reply to a password or an emailed code: the two actions read it in the same way. */
    method FinishFirstFactor(m: Method, f: Form, r: Upstream, l: Lookups) returns (o: Outcome)
      requires IsFirstFactor(m) && HasCredentials(m, f) && IsOk(r)
      modifies this
      ensures (jar, o) == Attempt(site, old(jar), m, f, r, l)
      ensures log == old(log) + ReplyEffects(site, m, f, r, l) + [Ended(o)]
    {
      if r.body.JsonNull? {
        o := End(Threw);
        return;
      }
      if r.body.Json? && r.body.twoFactorRedirect {
        ForwardTwoFactorCookie(r);
        o := End(ChallengedForCode);
        return;
      }
      o := OpenSession(m, f, r, l);
    }

    /** The last steps of a first factor that was not challenged. */
    method OpenSession(m: Method, f: Form, r: Upstream, l: Lookups) returns (o: Outcome)
      requires IsFirstFactor(m) && HasCredentials(m, f) && IsOk(r) && !r.body.JsonNull? && !SaysTwoFactor(r)
      modifies this
      ensures (jar, o) == Attempt(site, old(jar), m, f, r, l)
      ensures log == old(log) + ReplyEffects(site, m, f, r, l) + [Ended(o)]
    {
      var ok := ForwardSessionCookie(r);
      if !ok {
        o := End(Rejected(ServerUnavailable));
        return;
      }
      assert jar == SignedIn(site, old(jar), m, f, r, l);
      o := Leave(m, f, l);
      Regroup(old(log), [WroteSession], LeaveEffects(site, m, f, l), []);
      assert ReplyEffects(site, m, f, r, l) == [WroteSession] + LeaveEffects(site, m, f, l) + [];
    }

    /** Verification of a second factor, by authenticator or by backup code. */
    method VerifySecondFactor(m: Method, f: Form, r: Upstream, l: Lookups) returns (o: Outcome)
      requires m == Authenticator || m == BackupCode
      modifies this
      ensures (jar, o) == Attempt(site, old(jar), m, f, r, l)
      ensures log == old(log) + Effects(site, m, f, r, l)
    {
      assert !IsFirstFactor(m);
      Whole(log, Submitted(m), Posted, ReplyEffects(site, m, f, r, l),
            Ended(OutcomeOf(site, m, f, r, l)));
      log := log + [Submitted(m)];
      if f.secret == "" {
        o := End(Rejected(InvalidCode));
        return;
      }
      log := log + [Posted];
      if r.Unreachable? {
        o := End(Rejected(ServerUnavailable));
        return;
      }
      if !(200 <= r.status <= 299) {
        o := End(Rejected(if r.status == 429 then TooManyRequests else InvalidCode));
        return;
      }
      o := FinishSecondFactor(m, f, r, l);
    }

    /** A 2xx reply to a second factor. */
    method FinishSecondFactor(m: Method, f: Form, r: Upstream, l: Lookups) returns (o: Outcome)
      requires !IsFirstFactor(m) && HasCredentials(m, f) && IsOk(r)
      modifies this
      ensures (jar, o) == Attempt(site, old(jar), m, f, r, l)
      ensures log == old(log) + ReplyEffects(site, m, f, r, l) + [Ended(o)]
    {
      var ok := ForwardSessionCookie(r);
      if !ok {
        o := End(Rejected(ServerUnavailable));
        return;
      }
      ForwardSecondFactorCookies(m, f, r, l);
      assert jar == SignedIn(site, old(jar), m, f, r, l);
      o := Leave(m, f, l);
      Regroup(old(log), [WroteSession], SecondFactorEffects(site, m, f, r), LeaveEffects(site, m, f, l));
    }

    method ForwardSecondFactorCookies(m: Method, f: Form, r: Upstream, l: Lookups)
      requires !IsFirstFactor(m) && r.Reply?
      modifies this
      ensures log == old(log) + SecondFactorEffects(site, m, f, r)
      ensures var cleared := ForwardTwoFactor(site, old(jar), r);
        jar == if f.trustDevice then ForwardTrust(site, cleared, r, AppDays(site, SafeNext(site, f), l)) else cleared
    {
      ForwardTwoFactorCookie(r);
      if f.trustDevice {
        ApplyPerAppTrustCookie(f, r, l);
      }
    }
  }

  // ----- Every run of submissions

  datatype Submission = Submission(how: Method, form: Form, reply: Upstream, lookups: Lookups)

  function Submit(site: Site, jar: Jar, s: Submission): (Jar, Outcome) {
    Attempt(site, jar, s.how, s.form, s.reply, s.lookups)
  }

  function JarAfter(site: Site, start: Jar, run: seq<Submission>): Jar {
    if run == [] then start else Submit(site, JarAfter(site, start, run[..|run| - 1]), run[|run| - 1]).0
  }

  predicate Opens(site: Site, s: Submission) { Approved(site, s.how, s.form, s.reply) }

  /** A submission redirects exactly when it opened a session; every error and every challenge leaves
      the session that was there, and the trust cookie is only ever written with a session. */
  lemma RedirectsExactlyWithSession(site: Site, jar: Jar, s: Submission)
    ensures var (after, o) := Submit(site, jar, s);
      (o.Redirected? <==> Opens(site, s))
      && (!o.Redirected? ==> after.session == jar.session && after.trust == jar.trust)
      && (o.Redirected? ==> after.session == Some(Stored(site, CookieNamed(site, s.reply, site.sessionName).value)))
      && (after.trust != jar.trust ==> s.form.trustDevice && !IsFirstFactor(s.how))
  {
  }

  lemma {:induction false} UnapprovedRunsKeepSession(site: Site, start: Jar, run: seq<Submission>)
    requires forall i :: 0 <= i < |run| ==> !Opens(site, run[i])
    ensures JarAfter(site, start, run).session == start.session
  {
    if run != [] {
      var n := |run| - 1;
      UnapprovedRunsKeepSession(site, start, run[..n]);
      RedirectsExactlyWithSession(site, JarAfter(site, start, run[..n]), run[n]);
    }
  }

  /** After any run, the session in the jar is the one the last approved submission brought: later
      errors and challenges, and earlier sessions, have no say. */
  lemma {:induction false} SessionComesFromLastApproval(site: Site, start: Jar, run: seq<Submission>, i: nat)
    requires i < |run| && IsLastApproval(site, run, i)
    ensures JarAfter(site, start, run).session ==
      Some(Stored(site, CookieNamed(site, run[i].reply, site.sessionName).value))
  {
    var n := |run| - 1;
    RedirectsExactlyWithSession(site, JarAfter(site, start, run[..n]), run[n]);
    if i < n {
      SessionComesFromLastApproval(site, start, run[..n], i);
    }
  }

  ghost predicate IsLastApproval(site: Site, run: seq<Submission>, i: int)
    requires 0 <= i < |run|
  {
    Opens(site, run[i]) && forall j :: i < j < |run| ==> !Opens(site, run[j])
  }

  // ----- How a submission ends

  predicate IsFilledIn(s: Submission) {
    s.form.secret != "" && (s.how == Password || s.how == EmailCode ==> s.form.identifier != "")
  }

  /** The reply's header carries a session cookie that can be read. */
  predicate BringsSession(site: Site, r: Upstream)
    requires r.Reply?
  {
    r.setCookie.Some? && r.setCookie.value != ""
    && ParseHeader(r.setCookie.value, site.sessionName, site.readers).Some?
  }

  /** What the reply of the auth server means for the user.  A throttled user or one without an active
      account is never told that the secret was wrong, and neither is one whose secret was accepted. */
  lemma RepliesAreReportedFairly(site: Site, jar: Jar, s: Submission)
    ensures var (o, r, code) := (Submit(site, jar, s).1, s.reply, s.how != Password);
      var first := s.how == Password || s.how == EmailCode;
      var sent := IsFilledIn(s);
      var answered := sent && r.Reply?;
      var accepted := answered && 200 <= r.status <= 299;
      var denied := answered && !accepted;
      && (o == Rejected(MissingCredentials) <==> !sent && !code)
      && (o == Rejected(TooManyRequests) <==> denied && r.status == 429)
      && (o == Rejected(Unverified) <==>
            denied && first && r.status == 403 && r.body.Json? && r.body.unverified)
      && (o == Rejected(Inactive) <==>
            denied && first && r.status == 403 && !(r.body.Json? && r.body.unverified))
      && (o == Rejected(InvalidCredentials) <==> denied && !code && r.status != 403 && r.status != 429)
      && (o == Rejected(InvalidCode) <==>
            code && (!sent || (denied && r.status != 429 && !(first && r.status == 403))))
  {
  }

  /** And what an accepted one leads to: the challenge, the exception, a redirect, or, if no session can
      be read, the server's own fault. */
  lemma AcceptedRepliesOpenSessions(site: Site, jar: Jar, s: Submission)
    ensures var (o, r) := (Submit(site, jar, s).1, s.reply);
      var first := s.how == Password || s.how == EmailCode;
      var accepted := IsFilledIn(s) && r.Reply? && 200 <= r.status <= 299;
      var direct := accepted && !(first && (r.body.JsonNull? || (r.body.Json? && r.body.twoFactorRedirect)));
      && (o == ChallengedForCode <==> accepted && first && r.body.Json? && r.body.twoFactorRedirect)
      && (o == Threw <==> accepted && first && r.body.JsonNull?)
      && (o.Redirected? <==> direct && BringsSession(site, r))
      && (o == Rejected(ServerUnavailable) <==>
            IsFilledIn(s) && (r.Unreachable? || (direct && !BringsSession(site, r))))
  {
  }

  // ----- Where a submission leads

  /** The destination the form names, if the validator let it through. */
  function ValidatedNext(site: Site, f: Form): Option<string> {
    if f.next.Some? then site.validateNext(f.next.value) else None
  }

  /** The validated destination names an app. */
  predicate NamesApp(site: Site, f: Form) {
    var next := ValidatedNext(site, f);
    next.Some? && next.value != "" && site.clientIdOf(next.value).Some? && site.clientIdOf(next.value).value != ""
  }

  /** Consent comes first, if the app named has any outstanding; then perhaps the prompt; then the
      validated destination, or the users page when there is none.  No redirect carries a destination
      that the validator did not let through. */
  lemma LeadsOnlyToValidatedNext(site: Site, jar: Jar, s: Submission)
    requires Submit(site, jar, s).1.Redirected?
    ensures var (to, next) := (Submit(site, jar, s).1.to, ValidatedNext(site, s.form));
      (to.Consent? <==> NamesApp(site, s.form) && s.lookups.outstanding > 0)
      && match to
         case Consent(id, url) => url == next && site.clientIdOf(next.value) == Some(id)
         case TwoFactorPrompt(url) => url == next
         case Next(url) => next == Some(url)
         case Users => next == None
  {
  }

  /** The prompt is for password and code sign-in of a user known not to be enrolled; a user who is, or
      of whom either lookup failed, is never sent there, and neither is one whose last prompt has a date
      that cannot be read. */
  lemma PromptIsForTheUnenrolled(site: Site, jar: Jar, s: Submission)
    requires var o := Submit(site, jar, s).1; o.Redirected? && o.to.TwoFactorPrompt?
    ensures s.how == Password || s.how == EmailCode
    ensures s.lookups.enrolled == Some(false) && s.lookups.prompted.Some? && s.lookups.prompted != Some(Garbled)
  {
  }

  ghost predicate IsUnenrolledSignIn(site: Site, jar: Jar, s: Submission) {
    && Submit(site, jar, s).1.Redirected? && (s.how == Password || s.how == EmailCode)
    && s.lookups.enrolled == Some(false) && (NamesApp(site, s.form) ==> s.lookups.outstanding == 0)
  }

  /** A user never prompted before is sent to the prompt exactly when the app's switch is on or, without
      one, the system's. */
  lemma NeverPromptedIsPromptedIffOn(site: Site, jar: Jar, s: Submission)
    requires IsUnenrolledSignIn(site, jar, s) && s.lookups.prompted == Some(Never)
    ensures Submit(site, jar, s).1.to.TwoFactorPrompt? <==>
      var app := if NamesApp(site, s.form) then s.lookups.app else None;
      if app.Some? && app.value.promptEnabled.Some? then app.value.promptEnabled.value else site.systemPrompt
  {
  }

  /** One prompted before is sent there again exactly when, besides, more time has passed than the app's
      positive interval or, without one, the system's. */
  lemma PromptedAgainIffIntervalIsOver(site: Site, jar: Jar, s: Submission, ms: int)
    requires IsUnenrolledSignIn(site, jar, s) && s.lookups.prompted == Some(At(ms))
    ensures Submit(site, jar, s).1.to.TwoFactorPrompt? <==>
      var app := if NamesApp(site, s.form) then s.lookups.app else None;
      var days :=
        if app.Some? && app.value.days.Some? && app.value.days.value > 0.0 then app.value.days.value
        else site.systemTrustDays;
      (if app.Some? && app.value.promptEnabled.Some? then app.value.promptEnabled.value else site.systemPrompt)
      && (s.lookups.now - ms) as real > days * 24.0 * 60.0 * 60.0 * 1000.0
  {
  }

  lemma TrustCookieOf(site: Site, jar: Jar, s: Submission, p: ParsedCookie)
    requires Opens(site, s) && !IsFirstFactor(s.how) && s.form.trustDevice && s.reply.setCookie.Some?
    requires ParseHeader(s.reply.setCookie.value, site.trustName, site.readers) == Some(p)
    ensures var days := AppDays(site, SafeNext(site, s.form), s.lookups);
      Submit(site, jar, s).0.trust == Some(PassedOn(p).(maxAge := Some(days * SECONDS_PER_DAY), expires := None))
  {
    EmptyHeaderHasNoCookie(site.trustName, site.readers);
    assert CookieNamed(site, s.reply, site.trustName) == Some(p);
  }

  lemma DaysInPlainTerms(site: Site, f: Form, l: Lookups)
    ensures var app := if NamesApp(site, f) then l.app else None;
      AppDays(site, SafeNext(site, f), l) ==
        if app.Some? && app.value.days.Some? && app.value.days.value > 0.0 then app.value.days.value
        else site.systemTrustDays
  {
  }

  /** A second factor, with the device to be trusted, writes a trust cookie that lives for as many days as
      the app or, without a positive number of its own, the system says, whatever it came with. */
  lemma DeviceIsTrustedForTheAppsDays(site: Site, jar: Jar, s: Submission, p: ParsedCookie)
    requires Submit(site, jar, s).1.Redirected? && (s.how == Authenticator || s.how == BackupCode)
    requires s.form.trustDevice && s.reply.setCookie.Some?
    requires ParseHeader(s.reply.setCookie.value, site.trustName, site.readers) == Some(p)
    ensures var app := if NamesApp(site, s.form) then s.lookups.app else None;
      var days :=
        if app.Some? && app.value.days.Some? && app.value.days.value > 0.0 then app.value.days.value
        else site.systemTrustDays;
      var c := Submit(site, jar, s).0.trust;
      c.Some? && c.value.maxAge == Some(days * 24.0 * 60.0 * 60.0) && c.value.expires == None && IsPassedOn(p, c.value)
  {
    TrustCookieOf(site, jar, s, p);
    DaysInPlainTerms(site, s.form, s.lookups);
  }

  /** A cookie passed on keeps its value, flags and path, under the whole site without a path. */
  predicate IsPassedOn(p: ParsedCookie, c: StoredCookie) {
    && c.value == p.value && c.httpOnly == p.httpOnly && c.secure == p.secure && c.sameSite == p.sameSite
    && c.domain == None && c.path == if p.path.Some? then p.path.value else "/"
  }

  /** The challenge cookie is passed on with its lifetime by a challenge and by a second factor. */
  lemma ChallengeIsPassedOn(site: Site, jar: Jar, s: Submission, p: ParsedCookie)
    requires var o := Submit(site, jar, s).1;
      o == ChallengedForCode || (o.Redirected? && (s.how == Authenticator || s.how == BackupCode))
    requires s.reply.setCookie.Some?
    requires ParseHeader(s.reply.setCookie.value, site.twoFactorName, site.readers) == Some(p)
    ensures var c := Submit(site, jar, s).0.twoFactor;
      c.Some? && IsPassedOn(p, c.value) && c.value.maxAge == p.maxAge && c.value.expires == p.expires
  {
    EmptyHeaderHasNoCookie(site.twoFactorName, site.readers);
    assert CookieNamed(site, s.reply, site.twoFactorName) == Some(p);
  }

  // ----- Lookups

  /** The runs differ only in what the lookups answer. */
  ghost predicate SameButLookups(a: seq<Submission>, b: seq<Submission>) {
    |a| == |b| && forall i :: 0 <= i < |a| ==> a[i].(lookups := b[i].lookups) == b[i]
  }

  /** The jars hold the same cookies, but for how long the device is trusted. */
  predicate SameButTrustTime(x: Jar, y: Jar) {
    && x.session == y.session && x.twoFactor == y.twoFactor
    && match (x.trust, y.trust)
       case (Some(a), Some(b)) => a.(maxAge := b.maxAge) == b
       case (None, None) => true
       case _ => false
  }

  lemma TrustTimeIsAllThatDiffers(site: Site, x: Jar, y: Jar, r: Upstream, a: real, b: real)
    requires r.Reply? && SameButTrustTime(x, y)
    ensures SameButTrustTime(ForwardTwoFactor(site, x, r), ForwardTwoFactor(site, y, r))
    ensures SameButTrustTime(ForwardTrust(site, x, r, a), ForwardTrust(site, y, r, b))
  {
  }

  lemma LookupsSteerStep(site: Site, x: Jar, y: Jar, s: Submission, l: Lookups)
    requires SameButTrustTime(x, y)
    ensures SameButTrustTime(Submit(site, x, s).0, Submit(site, y, s.(lookups := l)).0)
  {
    var (m, f, r) := (s.how, s.form, s.reply);
    if Challenged(m, f, r) {
      TrustTimeIsAllThatDiffers(site, x, y, r, 0.0, 0.0);
    } else if Approved(site, m, f, r) {
      var session := Some(Stored(site, CookieNamed(site, r, site.sessionName).value));
      var (x, y) := (x.(session := session), y.(session := session));
      var (a, b) := (AppDays(site, SafeNext(site, f), s.lookups), AppDays(site, SafeNext(site, f), l));
      TrustTimeIsAllThatDiffers(site, x, y, r, a, b);
      TrustTimeIsAllThatDiffers(site, ForwardTwoFactor(site, x, r), ForwardTwoFactor(site, y, r), r, a, b);
    }
  }

  /** Lookups steer where a sign-in leads and how long a device is trusted, and nothing else: whatever
      they answer, failures included, the cookies are the same but for the trust cookie's lifetime, and
      no one is turned away for it. */
  lemma {:induction false} LookupsOnlySteer(site: Site, start: Jar, a: seq<Submission>, b: seq<Submission>)
    requires SameButLookups(a, b)
    ensures SameButTrustTime(JarAfter(site, start, a), JarAfter(site, start, b))
    ensures forall i :: 0 <= i < |a| ==> SameButTarget(OutcomeFor(site, a[i]), OutcomeFor(site, b[i]))
  {
    if a != [] {
      var n := |a| - 1;
      LookupsOnlySteer(site, start, a[..n], b[..n]);
      LookupsSteerStep(site, JarAfter(site, start, a[..n]), JarAfter(site, start, b[..n]), a[n], b[n].lookups);
    }
  }

  function OutcomeFor(site: Site, s: Submission): Outcome { OutcomeOf(site, s.how, s.form, s.reply, s.lookups) }

  predicate SameButTarget(a: Outcome, b: Outcome) { a == b || (a.Redirected? && b.Redirected?) }

  // ----- The order of effects over every run

  function EffectsFor(site: Site, s: Submission): seq<Effect> { Effects(site, s.how, s.form, s.reply, s.lookups) }

  function LogAfter(site: Site, run: seq<Submission>): seq<Effect> {
    if run == [] then [] else LogAfter(site, run[..|run| - 1]) + EffectsFor(site, run[|run| - 1])
  }

  /** Whether the submission under way has written its session. */
  function Open(log: seq<Effect>): bool {
    if log == [] then false else OpenNext(Open(log[..|log| - 1]), log[|log| - 1])
  }

  function OpenNext(before: bool, e: Effect): bool {
    if e.Submitted? || e.Ended? then false else e == WroteSession || before
  }

  predicate IsLookup(e: Effect) { e in {AskedConsent, AskedState, AskedApp} }

  /** What may come next: lookups, the trust cookie and redirects once the session is written, and an
      end without redirect only if it is not; a redirect to an interstitial right after its lookup. */
  predicate Fits(log: seq<Effect>, e: Effect) {
    match e
    case Submitted(_) => !Open(log)
    case Posted => !Open(log)
    case WroteSession => !Open(log)
    case WroteTwoFactor => true
    case Ended(o) =>
      && (o.Redirected? <==> Open(log))
      && (o.Redirected? && o.to.Consent? ==> log != [] && log[|log| - 1] == AskedConsent)
      && (o.Redirected? && o.to.TwoFactorPrompt? ==> log != [] && log[|log| - 1] in {AskedState, AskedApp})
    case _ => Open(log)
  }

  predicate Orderly(log: seq<Effect>) {
    log == [] || (Orderly(log[..|log| - 1]) && Fits(log[..|log| - 1], log[|log| - 1]))
  }

  lemma Extend(log: seq<Effect>, e: Effect)
    requires Orderly(log) && Fits(log, e)
    ensures Orderly(log + [e]) && Open(log + [e]) == OpenNext(Open(log), e)
  {
    assert (log + [e])[..|log|] == log;
  }

  lemma {:induction false} OrderlyAt(log: seq<Effect>, i: nat)
    requires Orderly(log) && i < |log|
    ensures Fits(log[..i], log[i])
  {
    if i < |log| - 1 {
      OrderlyAt(log[..|log| - 1], i);
      assert log[..|log| - 1][..i] == log[..i];
    }
  }

  predicate IsFollowUp(e: Effect) { IsLookup(e) || e == WroteTrust || e == WroteTwoFactor }

  ghost predicate AllFollowUps(effects: seq<Effect>) {
    forall i :: 0 <= i < |effects| ==> IsFollowUp(effects[i])
  }

  lemma {:induction false} FollowUp(log: seq<Effect>, more: seq<Effect>)
    requires Orderly(log) && Open(log) && AllFollowUps(more)
    ensures Orderly(log + more) && Open(log + more)
  {
    if more == [] {
      assert log + more == log;
    } else {
      var (before, e) := (log + more[..|more| - 1], more[|more| - 1]);
      FollowUp(log, more[..|more| - 1]);
      assert IsFollowUp(e);
      assert Fits(before, e);
      Extend(before, e);
      assert log + more == before + [e];
    }
  }

  lemma LeaveIsFollowUp(site: Site, s: Submission)
    ensures var (next, leave) := (SafeNext(site, s.form), LeaveEffects(site, s.how, s.form, s.lookups));
      AllFollowUps(leave)
      && (NeedsConsent(site, next, s.lookups) ==> leave != [] && leave[|leave| - 1] == AskedConsent)
      && (!NeedsConsent(site, next, s.lookups) && IsFirstFactor(s.how) ==>
            leave != [] && leave[|leave| - 1] in {AskedState, AskedApp})
  {
  }

  lemma OpensSession(log: seq<Effect>, m: Method)
    requires Orderly(log) && !Open(log)
    ensures Orderly(log + [Submitted(m), Posted, WroteSession]) && Open(log + [Submitted(m), Posted, WroteSession])
  {
    Extend(log, Submitted(m));
    Extend(log + [Submitted(m)], Posted);
    Extend(log + [Submitted(m)] + [Posted], WroteSession);
    assert log + [Submitted(m), Posted, WroteSession] == log + [Submitted(m)] + [Posted] + [WroteSession];
  }

  lemma Prepend3<T>(x: T, y: T, z: T, a: seq<T>, b: seq<T>)
    ensures [x] + ([y] + ([z] + a + b)) == [x, y, z] + a + b
  {
  }

  lemma ApprovedEffects(site: Site, s: Submission)
    requires Opens(site, s)
    ensures AllFollowUps(SecondFactorEffects(site, s.how, s.form, s.reply))
    ensures EffectsFor(site, s) == [Submitted(s.how), Posted, WroteSession]
      + SecondFactorEffects(site, s.how, s.form, s.reply) + LeaveEffects(site, s.how, s.form, s.lookups)
      + [Ended(Redirected(Destination(site, s.how, s.form, s.lookups)))]
  {
    Prepend3(Submitted(s.how), Posted, WroteSession,
             SecondFactorEffects(site, s.how, s.form, s.reply), LeaveEffects(site, s.how, s.form, s.lookups));
  }

  lemma LeavingFits(site: Site, s: Submission, log: seq<Effect>)
    requires Open(log + LeaveEffects(site, s.how, s.form, s.lookups))
    ensures Fits(log + LeaveEffects(site, s.how, s.form, s.lookups),
                 Ended(Redirected(Destination(site, s.how, s.form, s.lookups))))
  {
    var leave := LeaveEffects(site, s.how, s.form, s.lookups);
    LeaveIsFollowUp(site, s);
    assert leave != [] ==> (log + leave)[|log + leave| - 1] == leave[|leave| - 1];
  }

  lemma AppendApproval(log: seq<Effect>, m: Method, second: seq<Effect>, leave: seq<Effect>, end: Effect)
    requires Orderly(log) && !Open(log) && AllFollowUps(second) && AllFollowUps(leave) && end.Ended?
    requires var all := log + [Submitted(m), Posted, WroteSession] + second + leave; Open(all) ==> Fits(all, end)
    ensures var all := log + [Submitted(m), Posted, WroteSession] + second + leave + [end];
      Orderly(all) && !Open(all)
  {
    var begun := log + [Submitted(m), Posted, WroteSession];
    OpensSession(log, m);
    FollowUp(begun, second);
    FollowUp(begun + second, leave);
    Extend(begun + second + leave, end);
  }

  /** An approved submission, appended to an orderly log. */
  lemma ApprovalIsOrderly(site: Site, log: seq<Effect>, s: Submission)
    requires Orderly(log) && !Open(log) && Opens(site, s)
    ensures Orderly(log + EffectsFor(site, s)) && !Open(log + EffectsFor(site, s))
  {
    var second := SecondFactorEffects(site, s.how, s.form, s.reply);
    var leave := LeaveEffects(site, s.how, s.form, s.lookups);
    var end := Ended(Redirected(Destination(site, s.how, s.form, s.lookups)));
    var all := log + [Submitted(s.how), Posted, WroteSession] + second + leave;
    ApprovedEffects(site, s);
    LeaveIsFollowUp(site, s);
    if Open(all) {
      LeavingFits(site, s, log + [Submitted(s.how), Posted, WroteSession] + second);
    }
    AppendApproval(log, s.how, second, leave, end);
    Regroup(log, [Submitted(s.how), Posted, WroteSession], second, leave);
    assert log + EffectsFor(site, s) == log + ([Submitted(s.how), Posted, WroteSession] + second + leave) + [end];
  }

  predicate IsQuiet(e: Effect) { e == Posted || e == WroteTwoFactor }

  lemma {:induction false} Quiet(log: seq<Effect>, more: seq<Effect>)
    requires Orderly(log) && !Open(log) && forall i :: 0 <= i < |more| ==> IsQuiet(more[i])
    ensures Orderly(log + more) && !Open(log + more)
  {
    if more == [] {
      assert log + more == log;
    } else {
      var (before, e) := (log + more[..|more| - 1], more[|more| - 1]);
      Quiet(log, more[..|more| - 1]);
      assert IsQuiet(e);
      Extend(before, e);
      assert log + more == before + [e];
    }
  }

  lemma RefusalIsQuiet(site: Site, s: Submission) returns (middle: seq<Effect>)
    requires !Opens(site, s)
    ensures forall i :: 0 <= i < |middle| ==> IsQuiet(middle[i])
    ensures EffectsFor(site, s) == [Submitted(s.how)] + middle + [Ended(OutcomeFor(site, s))]
    ensures !OutcomeFor(site, s).Redirected?
  {
    middle := if HasCredentials(s.how, s.form)
      then [Posted] + ReplyEffects(site, s.how, s.form, s.reply, s.lookups) else [];
  }

  lemma RefusalIsOrderly(site: Site, log: seq<Effect>, s: Submission)
    requires Orderly(log) && !Open(log) && !Opens(site, s)
    ensures Orderly(log + EffectsFor(site, s)) && !Open(log + EffectsFor(site, s))
  {
    var middle := RefusalIsQuiet(site, s);
    var end := Ended(OutcomeFor(site, s));
    Extend(log, Submitted(s.how));
    Quiet(log + [Submitted(s.how)], middle);
    Extend(log + [Submitted(s.how)] + middle, end);
    Regroup(log, [Submitted(s.how)], middle, [end]);
  }

  lemma {:induction false} EveryRunIsOrderly(site: Site, run: seq<Submission>)
    ensures Orderly(LogAfter(site, run)) && !Open(LogAfter(site, run))
  {
    if run != [] {
      var n := |run| - 1;
      EveryRunIsOrderly(site, run[..n]);
      if Opens(site, run[n]) {
        ApprovalIsOrderly(site, LogAfter(site, run[..n]), run[n]);
      } else {
        RefusalIsOrderly(site, LogAfter(site, run[..n]), run[n]);
      }
    }
  }

  /** Between entries `j` and `i` no submission begins or ends. */
  ghost predicate SameSubmission(log: seq<Effect>, j: nat, i: nat)
    requires j < i <= |log|
  {
    forall k :: j < k < i ==> !log[k].Submitted? && !log[k].Ended?
  }

  lemma {:induction false} OpenSince(log: seq<Effect>, i: nat) returns (j: nat)
    requires i <= |log| && Open(log[..i])
    ensures j < i && log[j] == WroteSession && SameSubmission(log, j, i)
  {
    assert log[..i][..i - 1] == log[..i - 1];
    j := i - 1;
    if log[i - 1] != WroteSession {
      j := OpenSince(log, i - 1);
    }
  }

  lemma {:induction false} StillOpen(log: seq<Effect>, j: nat, i: nat)
    requires j < i <= |log| && log[j] == WroteSession && SameSubmission(log, j, i)
    ensures Open(log[..i])
  {
    assert log[..i][..i - 1] == log[..i - 1];
    if j < i - 1 {
      StillOpen(log, j, i - 1);
    }
  }

  /** Over every run of submissions: a lookup, the trust cookie and a redirect come only after the same
      submission has written its session. */
  lemma {:induction false} SessionComesFirst(site: Site, run: seq<Submission>, i: nat) returns (j: nat)
    requires var log := LogAfter(site, run);
      i < |log| && (IsLookup(log[i]) || log[i] == WroteTrust || (log[i].Ended? && log[i].outcome.Redirected?))
    ensures var log := LogAfter(site, run);
      j < i && log[j] == WroteSession && SameSubmission(log, j, i)
  {
    EveryRunIsOrderly(site, run);
    OrderlyAt(LogAfter(site, run), i);
    j := OpenSince(LogAfter(site, run), i);
  }

  /** And once it has, that submission ends in a redirect: no error, challenge or exception follows. */
  lemma {:induction false} SessionIsNotTakenBack(site: Site, run: seq<Submission>, j: nat, i: nat)
    requires var log := LogAfter(site, run);
      j < i < |log| && log[j] == WroteSession && SameSubmission(log, j, i) && (log[i].Ended? || log[i].Submitted?)
    ensures var log := LogAfter(site, run); log[i].Ended? && log[i].outcome.Redirected?
  {
    EveryRunIsOrderly(site, run);
    OrderlyAt(LogAfter(site, run), i);
    StillOpen(LogAfter(site, run), j, i);
  }

  /** A user is sent to an interstitial only straight from the lookup that calls for it. */
  lemma {:induction false} InterstitialsFollowTheirLookups(site: Site, run: seq<Submission>, i: nat)
    requires var log := LogAfter(site, run); i < |log| && log[i].Ended? && log[i].outcome.Redirected?
    ensures var log := LogAfter(site, run);
      (log[i].outcome.to.Consent? ==> i > 0 && log[i - 1] == AskedConsent)
      && (log[i].outcome.to.TwoFactorPrompt? ==> i > 0 && log[i - 1] in {AskedState, AskedApp})
  {
    EveryRunIsOrderly(site, run);
    OrderlyAt(LogAfter(site, run), i);
  }

  lemma SubmissionLogsItsCookies(site: Site, jar: Jar, s: Submission)
    ensures var (after, effects) := (Submit(site, jar, s).0, EffectsFor(site, s));
      (WroteSession !in effects ==> after.session == jar.session)
      && (WroteTwoFactor !in effects ==> after.twoFactor == jar.twoFactor)
      && (WroteTrust !in effects ==> after.trust == jar.trust)
  {
    if Opens(site, s) {
      ApprovedEffects(site, s);
    }
  }

  /** The log accounts for the jar: a cookie that no entry says was written is the one the browser came with. */
  lemma {:induction false} OnlyLoggedCookiesChange(site: Site, start: Jar, run: seq<Submission>)
    ensures var (jar, log) := (JarAfter(site, start, run), LogAfter(site, run));
      (WroteSession !in log ==> jar.session == start.session)
      && (WroteTwoFactor !in log ==> jar.twoFactor == start.twoFactor)
      && (WroteTrust !in log ==> jar.trust == start.trust)
  {
    if run != [] {
      var n := |run| - 1;
      OnlyLoggedCookiesChange(site, start, run[..n]);
      SubmissionLogsItsCookies(site, JarAfter(site, start, run[..n]), run[n]);
    }
  }

  /** Some action of the run throws exactly if a 2xx reply to a password or an emailed code had the JSON
      text `null` for a body. */
  lemma {:induction false} ThrowsIffBodyIsNull(site: Site, run: seq<Submission>)
    ensures Ended(Threw) in LogAfter(site, run) <==>
      exists i :: 0 <= i < |run| && Crashes(run[i].how, run[i].form, run[i].reply)
  {
    if run != [] {
      var (n, last) := (|run| - 1, run[|run| - 1]);
      ThrowsIffBodyIsNull(site, run[..n]);
      ThrowsInOne(site, last);
      assert forall i :: 0 <= i < n ==> run[..n][i] == run[i];
      if Crashes(last.how, last.form, last.reply) {
        assert Crashes(run[n].how, run[n].form, run[n].reply);
      }
    }
  }

  lemma EndsOnce(before: seq<Effect>, end: Effect, e: Effect)
    requires e.Ended? && forall i :: 0 <= i < |before| ==> !before[i].Ended?
    ensures e in before + [end] <==> e == end
  {
    if e == end {
      assert (before + [end])[|before|] == e;
    }
  }

  lemma NoEndYet(m: Method, second: seq<Effect>, leave: seq<Effect>)
    requires AllFollowUps(second) && AllFollowUps(leave)
    ensures var before := [Submitted(m), Posted, WroteSession] + second + leave;
      forall i :: 0 <= i < |before| ==> !before[i].Ended?
  {
    var before := [Submitted(m), Posted, WroteSession] + second + leave;
    forall i | 3 <= i < |before|
      ensures IsFollowUp(before[i])
    {
      assert before[i] == if i < 3 + |second| then second[i - 3] else leave[i - 3 - |second|];
    }
  }

  lemma ThrowsInOne(site: Site, s: Submission)
    ensures Ended(Threw) in EffectsFor(site, s) <==> Crashes(s.how, s.form, s.reply)
  {
    if Opens(site, s) {
      var second := SecondFactorEffects(site, s.how, s.form, s.reply);
      var leave := LeaveEffects(site, s.how, s.form, s.lookups);
      ApprovedEffects(site, s);
      LeaveIsFollowUp(site, s);
      NoEndYet(s.how, second, leave);
      EndsOnce([Submitted(s.how), Posted, WroteSession] + second + leave, Ended(OutcomeFor(site, s)), Ended(Threw));
    } else {
      var middle := RefusalIsQuiet(site, s);
      assert forall i :: 0 <= i < |middle| ==> IsQuiet(middle[i]) && !middle[i].Ended?;
      EndsOnce([Submitted(s.how)] + middle, Ended(OutcomeFor(site, s)), Ended(Threw));
    }
  }

  // ----- From the auth server's header to the jar

  /** End to end: the session the auth server wrote is the session the jar gets, value and attributes,
      wherever its cookie stands in the header. */
  lemma {:induction false} WrittenSessionIsStored(
    site: Site, jar: Jar, s: Submission, before: seq<string>, value: string, attrs: seq<Attribute>, after: seq<string>)
    requires Opens(site, s) && IsName(site.sessionName)
    requires forall i :: 0 <= i < |attrs| ==> Writable(attrs[i], site.readers)
    requires forall i :: 0 <= i < |before| ==>
      WellFormed(before[i]) && ParseClause(before[i], site.sessionName, site.readers).None?
    requires forall i :: 0 <= i < |after| ==> WellFormed(after[i])
    requires s.reply.setCookie == Some(Join(before + [WriteCookie(site.sessionName, value, attrs)] + after, ", "))
    ensures Submit(site, jar, s).0.session == Some(Stored(site, Meaning(value, attrs)))
    ensures var (c, p) := (Submit(site, jar, s).0.session.value, Meaning(value, attrs));
      && c.value == value && c.httpOnly == p.httpOnly && c.secure == (p.secure || site.secureDefault)
      && c.sameSite == Some(if p.sameSite.Some? then p.sameSite.value else Lax)
      && c.path == (if p.path.Some? then p.path.value else "/")
      && c.domain == p.domain && c.maxAge == p.maxAge && c.expires == p.expires
  {
    AbsentKindsAreUnset(value, attrs, OtherKind);
    RedirectsExactlyWithSession(site, jar, s);
    SessionCookieRoundTrip(before, site.sessionName, value, attrs, after, site.readers);
  }

  /** The browser drops a cookie whose lifetime is over on arrival. */
  predicate IsCleared(c: StoredCookie) { c.maxAge.Some? && c.maxAge.value <= 0.0 }

  /** The challenge cookie the auth server expires with a verified second factor is expired in the
      browser, wherever its clause stands in the header. */
  lemma {:induction false} ExpiredChallengeIsCleared(
    site: Site, jar: Jar, s: Submission, before: seq<string>, attrs: seq<Attribute>, after: seq<string>)
    requires Opens(site, s) && !IsFirstFactor(s.how) && IsName(site.twoFactorName)
    requires forall i :: 0 <= i < |attrs| ==> Writable(attrs[i], site.readers)
    requires Meaning("", attrs).maxAge.Some? && Meaning("", attrs).maxAge.value <= 0.0
    requires forall i :: 0 <= i < |before| ==>
      WellFormed(before[i]) && ParseClause(before[i], site.twoFactorName, site.readers).None?
    requires forall i :: 0 <= i < |after| ==> WellFormed(after[i])
    requires s.reply.setCookie == Some(Join(before + [WriteCookie(site.twoFactorName, "", attrs)] + after, ", "))
    ensures var c := Submit(site, jar, s).0.twoFactor; c.Some? && c.value.value == "" && IsCleared(c.value)
  {
    SessionCookieRoundTrip(before, site.twoFactorName, "", attrs, after, site.readers);
    AbsentKindsAreUnset("", attrs, OtherKind);
  }
}
