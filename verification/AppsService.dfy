/**
 * The apps service over a transactional store.
 *
 * `AppsService` is the service with its database; each operation checks, then writes in one
 * transaction or not at all.  `Apply` is the same operations on values, for statements about whole
 * runs of calls.  Orgs, roles and permissions belong to other services and only matter here as
 * rows that name an app.
 */
module AppsServices {
  import opened Arithmetic
  import opened PasswordPolicies
  import opened SearchEscape
  import opened Basics

  datatype Redirect = Redirect(uri: string, kind: string)

  /** Overrides for the activation email; an omitted field keeps the platform's own text. */
  datatype EmailBranding = EmailBranding(
    fromName: Option<string>, fromAddress: Option<string>, subject: Option<string>, message: Option<string>)

  /** Columns the service copies from request to row and back without looking at them. */
  datatype Column =
    | Logo | Favicon | PageLightBackground | PageDarkBackground | CardLightBackground | CardDarkBackground
    | TwoFactorTrustDays | TwoFactorPromptEnabled | RequireTwoFactor | AllowOfflineAccess
    | PrivacyPolicyUrl | TermsUrl | GdprUrl

  datatype Value = Null | Text(text: string) | Number(number: int) | Flag(flag: bool)

  datatype App = App(
    id: nat,
    name: string,
    url: string,
    isPlatform: bool,
    columns: map<Column, Value>,
    redirects: seq<Redirect>,
    defaultOrg: Option<nat>,
    defaultRole: Option<nat>,
    passwordOverride: Option<PasswordPolicy>,
    webhookUrl: Option<string>,
    webhookSecret: Option<string>,
    emailOverride: Option<EmailBranding>,
    emailMethod: string,
    clientSecretHash: Option<string>,
    clientSecretUpdatedAt: Option<int>)

  /** A row of another service: its own id and the app it belongs to. */
  datatype Owned = Owned(id: nat, appId: nat)

  /** Apps are found by the public id that encodes their numeric one. */
  datatype Store = Store(
    apps: map<string, App>,
    nextId: nat,
    orgs: map<string, Owned>,
    roles: map<string, Owned>,
    permissionApps: set<nat>)

  datatype Error = BadRequest | NotFound | Forbidden | Conflict
  datatype Result<T> = Ok(value: T) | Err(error: Error)

  datatype CreateDto = CreateDto(
    name: string, url: string, columns: map<Column, Value>, redirects: Option<seq<Redirect>>)

  /** An outer `None` is an omitted field, an inner one clears the column. */
  datatype UpdateDto = UpdateDto(
    name: Option<string>,
    url: Option<string>,
    columns: map<Column, Value>,
    redirects: Option<seq<Redirect>>,
    defaultOrg: Option<Option<string>>,
    defaultRole: Option<Option<string>>,
    passwordOverride: Option<Option<PasswordPolicy>>,
    webhookUrl: Option<Option<string>>,
    emailOverride: Option<Option<EmailBranding>>,
    emailMethod: Option<string>)

  /** What the service takes from elsewhere: URL and address syntax, and public ids. */
  datatype Env = Env(isHttpUrl: string -> bool, isAddress: string -> bool, encodeId: nat -> string)

  // ----- Checks on requests

  predicate ValidRedirect(env: Env, r: Redirect) {
    env.isHttpUrl(r.uri) && (r.kind == "login" || r.kind == "post_logout")
  }

  ghost predicate ValidRedirects(env: Env, rs: seq<Redirect>) {
    && (forall i :: 0 <= i < |rs| ==> ValidRedirect(env, rs[i]))
    && (forall i, j :: 0 <= i < j < |rs| ==> rs[i] != rs[j])
  }

  function RedirectKey(r: Redirect): string { r.uri + " " + r.kind }

  /** The text used to spot duplicates tells rows apart: neither kind contains a blank. */
  lemma KeysAreInjective(env: Env, a: Redirect, b: Redirect)
    requires ValidRedirect(env, a) && ValidRedirect(env, b)
    ensures RedirectKey(a) == RedirectKey(b) <==> a == b
  {
    var x, y := RedirectKey(a), RedirectKey(b);
    if x == y {
      assert x[|x| - 1] == a.kind[|a.kind| - 1] && y[|y| - 1] == b.kind[|b.kind| - 1];
      assert a.kind == b.kind;
      assert a.uri == x[..|x| - 1 - |a.kind|] && b.uri == y[..|y| - 1 - |b.kind|];
    }
  }

  method AssertValidRedirectUris(env: Env, uris: seq<Redirect>) returns (ok: bool)
    ensures ok <==> ValidRedirects(env, uris)
  {
    var seen: set<string> := {};
    for i := 0 to |uris|
      invariant ValidRedirects(env, uris[..i])
      invariant seen == set j | 0 <= j < i :: RedirectKey(uris[j])
    {
      var r := uris[i];
      assert uris[..i + 1][i] == r;
      if !env.isHttpUrl(r.uri) {
        return false;
      }
      if r.kind != "login" && r.kind != "post_logout" {
        return false;
      }
      forall j | 0 <= j < i
        ensures RedirectKey(uris[j]) == RedirectKey(r) <==> uris[j] == r
      {
        assert ValidRedirect(env, uris[..i][j]);
        KeysAreInjective(env, uris[j], r);
      }
      if RedirectKey(r) in seen {
        return false;
      }
      seen := seen + {RedirectKey(r)};
      assert uris[..i + 1] == uris[..i] + [r];
    }
    assert uris[..|uris|] == uris;
    return true;
  }

  predicate NoLineBreak(o: Option<string>) { o.Some? ==> '\r' !in o.value && '\n' !in o.value }

  predicate ValidBranding(env: Env, b: EmailBranding) {
    && NoLineBreak(b.fromName) && NoLineBreak(b.fromAddress) && NoLineBreak(b.subject)
    && (b.fromAddress.Some? ==> env.isAddress(b.fromAddress.value))
  }

  // ----- What the store must satisfy

  ghost predicate OwnedBy(rows: map<string, Owned>, id: nat, appId: nat) {
    exists k :: k in rows && rows[k] == Owned(id, appId)
  }

  ghost predicate ValidApp(env: Env, orgs: map<string, Owned>, roles: map<string, Owned>, a: App) {
    && (a.webhookSecret.Some? ==> a.webhookUrl.Some?)
    && ValidRedirects(env, a.redirects)
    && (a.defaultOrg.Some? ==> OwnedBy(orgs, a.defaultOrg.value, a.id))
    && (a.defaultRole.Some? ==> OwnedBy(roles, a.defaultRole.value, a.id))
    && (a.passwordOverride.Some? ==> ValidOverride(a.passwordOverride.value))
    && (a.emailOverride.Some? ==> ValidBranding(env, a.emailOverride.value))
    && a.emailMethod in {"link", "code"}
  }

  ghost predicate Invariant(env: Env, s: Store) {
    && (forall p :: p in s.apps ==> ValidApp(env, s.orgs, s.roles, s.apps[p]) && s.apps[p].id < s.nextId)
    && Unique(s.apps)
  }

  ghost predicate Unique(apps: map<string, App>) {
    forall p, q :: p in apps && q in apps && p != q ==> apps[p].name != apps[q].name && apps[p].id != apps[q].id
  }

  // ----- The operations on values

  predicate NameTaken(s: Store, name: string, except: string) {
    exists p :: p in s.apps && p != except && s.apps[p].name == name
  }

  function Given<T>(o: Option<T>, current: T): T { if o.Some? then o.value else current }

  /** The id to store for a default org or role; nothing when the field was omitted. */
  function Resolve(rows: map<string, Owned>, appId: nat, choice: Option<Option<string>>): Result<Option<Option<nat>>> {
    match choice
    case None => Ok(None)
    case Some(None) => Ok(Some(None))
    case Some(Some(publicId)) =>
      if publicId !in rows then Err(NotFound)
      else if rows[publicId].appId != appId then Err(BadRequest)
      else Ok(Some(Some(rows[publicId].id)))
  }

  function NewApp(id: nat, dto: CreateDto): App {
    App(id, dto.name, dto.url, false, dto.columns, Given(dto.redirects, []),
        None, None, None, None, None, None, "link", None, None)
  }

  ghost function CreateError(env: Env, s: Store, dto: CreateDto, allowed: bool): Option<Error> {
    if !allowed then Some(Forbidden)
    else if dto.redirects.Some? && !ValidRedirects(env, dto.redirects.value) then Some(BadRequest)
    else if (exists p :: p in s.apps && s.apps[p].name == dto.name) || env.encodeId(s.nextId) in s.apps then
      Some(Conflict)
    else None
  }

  predicate IsEmptyUpdate(dto: UpdateDto) {
    dto.name.None? && dto.url.None? && dto.columns == map[] && dto.redirects.None? && dto.defaultOrg.None?
    && dto.defaultRole.None? && dto.passwordOverride.None? && dto.webhookUrl.None? && dto.emailOverride.None?
    && dto.emailMethod.None?
  }

  predicate SetsTo<T>(field: Option<Option<T>>, ok: T -> bool) {
    field.Some? && field.value.Some? ==> ok(field.value.value)
  }

  ghost function UpdateError(env: Env, s: Store, publicId: string, dto: UpdateDto, allowed: bool): Option<Error> {
    if IsEmptyUpdate(dto) then Some(BadRequest)
    else if !allowed then Some(Forbidden)
    else if publicId !in s.apps then Some(NotFound)
    else
      var a := s.apps[publicId];
      if a.isPlatform then Some(Forbidden)
      else if dto.redirects.Some? && !ValidRedirects(env, dto.redirects.value) then Some(BadRequest)
      else if !SetsTo(dto.passwordOverride, p => ValidOverride(p)) then Some(BadRequest)
      else if !SetsTo(dto.emailOverride, b => ValidBranding(env, b)) then Some(BadRequest)
      else if dto.emailMethod.Some? && dto.emailMethod.value !in {"link", "code"} then Some(BadRequest)
      else if Resolve(s.orgs, a.id, dto.defaultOrg).Err? then Some(Resolve(s.orgs, a.id, dto.defaultOrg).error)
      else if Resolve(s.roles, a.id, dto.defaultRole).Err? then Some(Resolve(s.roles, a.id, dto.defaultRole).error)
      else if dto.name.Some? && NameTaken(s, dto.name.value, publicId) then Some(Conflict)
      else None
  }

  /** The row with what the request gives; clearing the webhook URL clears its secret. */
  function UpdatedApp(a: App, dto: UpdateDto, org: Option<Option<nat>>, role: Option<Option<nat>>): App {
    a.(name := Given(dto.name, a.name),
       url := Given(dto.url, a.url),
       columns := a.columns + dto.columns,
       redirects := Given(dto.redirects, a.redirects),
       defaultOrg := Given(org, a.defaultOrg),
       defaultRole := Given(role, a.defaultRole),
       passwordOverride := Given(dto.passwordOverride, a.passwordOverride),
       webhookUrl := Given(dto.webhookUrl, a.webhookUrl),
       webhookSecret := if dto.webhookUrl == Some(None) then None else a.webhookSecret,
       emailOverride := Given(dto.emailOverride, a.emailOverride),
       emailMethod := Given(dto.emailMethod, a.emailMethod))
  }

  predicate HasDependents(s: Store, appId: nat) {
    (exists k :: k in s.orgs && s.orgs[k].appId == appId) || (exists k :: k in s.roles && s.roles[k].appId == appId)
    || appId in s.permissionApps
  }

  datatype Op =
    | Create(createDto: CreateDto)
    | Update(publicId: string, updateDto: UpdateDto)
    | RotateClientSecret(publicId: string, hash: string, now: int)
    | RotateWebhookSecret(publicId: string, secret: string)
    | Delete(publicId: string)

  predicate IsUsable(url: Option<string>) { url.Some? && url.value != "" }

  ghost function ErrorOf(env: Env, s: Store, op: Op, allowed: bool): Option<Error> {
    match op
    case Create(dto) => CreateError(env, s, dto, allowed)
    case Update(p, dto) => UpdateError(env, s, p, dto, allowed)
    case RotateClientSecret(p, _, _) =>
      if !allowed then Some(Forbidden) else if p !in s.apps then Some(NotFound) else None
    case RotateWebhookSecret(p, _) =>
      if !allowed then Some(Forbidden)
      else if p !in s.apps then Some(NotFound)
      else if !IsUsable(s.apps[p].webhookUrl) then Some(BadRequest)
      else None
    case Delete(p) =>
      if !allowed then Some(Forbidden)
      else if p !in s.apps then Some(NotFound)
      else if s.apps[p].isPlatform then Some(Forbidden)
      else if HasDependents(s, s.apps[p].id) then Some(Conflict)
      else None
  }

  function WithClientSecret(a: App, hash: string, now: int): App {
    a.(clientSecretHash := Some(hash), clientSecretUpdatedAt := Some(now))
  }

  /** The store after an operation: all of its writes, or none. */
  ghost function Apply(env: Env, s: Store, op: Op, allowed: bool): Store {
    if ErrorOf(env, s, op, allowed).Some? then s
    else
      match op
      case Create(dto) => s.(apps := s.apps[env.encodeId(s.nextId) := NewApp(s.nextId, dto)], nextId := s.nextId + 1)
      case Update(p, dto) =>
        var a := s.apps[p];
        var (org, role) := (Resolve(s.orgs, a.id, dto.defaultOrg), Resolve(s.roles, a.id, dto.defaultRole));
        s.(apps := s.apps[p := UpdatedApp(a, dto, org.value, role.value)])
      case RotateClientSecret(p, hash, now) => s.(apps := s.apps[p := WithClientSecret(s.apps[p], hash, now)])
      case RotateWebhookSecret(p, secret) => s.(apps := s.apps[p := s.apps[p].(webhookSecret := Some(secret))])
      case Delete(p) => s.(apps := s.apps - {p})
  }

  // ----- The service

  class AppsService {
    const env: Env
    var store: Store

    constructor (env: Env, store: Store)
      ensures this.env == env && this.store == store
    {
      this.env, this.store := env, store;
    }

    method CreateApp(allowed: bool, dto: CreateDto) returns (error: Option<Error>)
      modifies this
      ensures error == ErrorOf(env, old(store), Create(dto), allowed)
      ensures store == Apply(env, old(store), Create(dto), allowed)
    {
      if !allowed {
        return Some(Forbidden);
      }
      if dto.redirects.Some? {
        var ok := AssertValidRedirectUris(env, dto.redirects.value);
        if !ok {
          return Some(BadRequest);
        }
      }
      var publicId := env.encodeId(store.nextId);
      if (exists p :: p in store.apps && store.apps[p].name == dto.name) || publicId in store.apps {
        return Some(Conflict);
      }
      store := store.(apps := store.apps[publicId := NewApp(store.nextId, dto)], nextId := store.nextId + 1);
      return None;
    }

    method UpdateApp(allowed: bool, publicId: string, dto: UpdateDto) returns (error: Option<Error>)
      modifies this
      ensures error == ErrorOf(env, old(store), Update(publicId, dto), allowed)
      ensures store == Apply(env, old(store), Update(publicId, dto), allowed)
    {
      if IsEmptyUpdate(dto) {
        return Some(BadRequest);
      }
      if !allowed {
        return Some(Forbidden);
      }
      if publicId !in store.apps {
        return Some(NotFound);
      }
      var existing := store.apps[publicId];
      if existing.isPlatform {
        return Some(Forbidden);
      }
      if dto.redirects.Some? {
        var ok := AssertValidRedirectUris(env, dto.redirects.value);
        if !ok {
          return Some(BadRequest);
        }
      }
      if dto.passwordOverride.Some? && dto.passwordOverride.value.Some?
         && !ValidOverride(dto.passwordOverride.value.value) {
        return Some(BadRequest);
      }
      if dto.emailOverride.Some? && dto.emailOverride.value.Some?
         && !ValidBranding(env, dto.emailOverride.value.value) {
        return Some(BadRequest);
      }
      if dto.emailMethod.Some? && dto.emailMethod.value != "link" && dto.emailMethod.value != "code" {
        return Some(BadRequest);
      }
      var org := Resolve(store.orgs, existing.id, dto.defaultOrg);
      if org.Err? {
        return Some(org.error);
      }
      var role := Resolve(store.roles, existing.id, dto.defaultRole);
      if role.Err? {
        return Some(role.error);
      }
      if dto.name.Some? && NameTaken(store, dto.name.value, publicId) {
        return Some(Conflict);
      }
      store := store.(apps := store.apps[publicId := UpdatedApp(existing, dto, org.value, role.value)]);
      return None;
    }

    method RotateClientSecret(allowed: bool, publicId: string, hash: string, now: int) returns (error: Option<Error>)
      modifies this
      ensures error == ErrorOf(env, old(store), Op.RotateClientSecret(publicId, hash, now), allowed)
      ensures store == Apply(env, old(store), Op.RotateClientSecret(publicId, hash, now), allowed)
    {
      if !allowed {
        return Some(Forbidden);
      }
      if publicId !in store.apps {
        return Some(NotFound);
      }
      var existing := store.apps[publicId];
      store := store.(
        apps := store.apps[publicId := existing.(clientSecretHash := Some(hash), clientSecretUpdatedAt := Some(now))]);
      return None;
    }

    method RotateWebhookSecret(allowed: bool, publicId: string, secret: string) returns (error: Option<Error>)
      modifies this
      ensures error == ErrorOf(env, old(store), Op.RotateWebhookSecret(publicId, secret), allowed)
      ensures store == Apply(env, old(store), Op.RotateWebhookSecret(publicId, secret), allowed)
    {
      if !allowed {
        return Some(Forbidden);
      }
      if publicId !in store.apps {
        return Some(NotFound);
      }
      var existing := store.apps[publicId];
      if existing.webhookUrl.None? || existing.webhookUrl.value == "" {
        return Some(BadRequest);
      }
      store := store.(apps := store.apps[publicId := existing.(webhookSecret := Some(secret))]);
      return None;
    }

    method DeleteApp(allowed: bool, publicId: string) returns (error: Option<Error>)
      modifies this
      ensures error == ErrorOf(env, old(store), Delete(publicId), allowed)
      ensures store == Apply(env, old(store), Delete(publicId), allowed)
    {
      if !allowed {
        return Some(Forbidden);
      }
      if publicId !in store.apps {
        return Some(NotFound);
      }
      var existing := store.apps[publicId];
      if existing.isPlatform {
        return Some(Forbidden);
      }
      if HasDependents(store, existing.id) {
        return Some(Conflict);
      }
      store := store.(apps := store.apps - {publicId});
      return None;
    }
  }

  // ----- Every run of calls

  datatype Call = Call(op: Op, allowed: bool)

  ghost function Run(env: Env, s: Store, calls: seq<Call>): Store {
    if calls == [] then s
    else Apply(env, Run(env, s, calls[..|calls| - 1]), calls[|calls| - 1].op, calls[|calls| - 1].allowed)
  }

  lemma ResolvedIsOwned(rows: map<string, Owned>, appId: nat, choice: Option<Option<string>>)
    requires Resolve(rows, appId, choice).Ok?
    ensures var r := Resolve(rows, appId, choice).value;
      r.Some? && r.value.Some? ==> OwnedBy(rows, r.value.value, appId)
  {
    match choice
    case Some(Some(k)) => assert rows[k] == Owned(rows[k].id, appId);
    case _ =>
  }

  lemma UpdatedIsValid(env: Env, s: Store, p: string, dto: UpdateDto)
    requires p in s.apps && ValidApp(env, s.orgs, s.roles, s.apps[p]) && UpdateError(env, s, p, dto, true).None?
    ensures var a := s.apps[p];
      ValidApp(env, s.orgs, s.roles,
        UpdatedApp(a, dto, Resolve(s.orgs, a.id, dto.defaultOrg).value, Resolve(s.roles, a.id, dto.defaultRole).value))
  {
    ResolvedIsOwned(s.orgs, s.apps[p].id, dto.defaultOrg);
    ResolvedIsOwned(s.roles, s.apps[p].id, dto.defaultRole);
  }

  lemma ReplacingKeepsInvariant(env: Env, s: Store, p: string, a: App)
    requires Invariant(env, s) && p in s.apps && a.id == s.apps[p].id
    requires ValidApp(env, s.orgs, s.roles, a) && (a.name == s.apps[p].name || !NameTaken(s, a.name, p))
    ensures Invariant(env, s.(apps := s.apps[p := a]))
  {
  }

  lemma CreatingKeepsInvariant(env: Env, s: Store, dto: CreateDto)
    requires Invariant(env, s) && CreateError(env, s, dto, true).None?
    ensures Invariant(env, Apply(env, s, Create(dto), true))
  {
    var next := Apply(env, s, Create(dto), true);
    var a := NewApp(s.nextId, dto);
    assert ValidApp(env, s.orgs, s.roles, a);
    assert forall q :: q in s.apps ==> s.apps[q].name != a.name && s.apps[q].id != a.id;
    assert Unique(next.apps);
  }

  lemma {:induction false} ApplyKeepsInvariant(env: Env, s: Store, op: Op, allowed: bool)
    requires Invariant(env, s)
    ensures Invariant(env, Apply(env, s, op, allowed))
  {
    if ErrorOf(env, s, op, allowed).None? {
      match op
      case Create(dto) => CreatingKeepsInvariant(env, s, dto);
      case Update(p, dto) =>
        var a := s.apps[p];
        UpdatedIsValid(env, s, p, dto);
        ReplacingKeepsInvariant(env, s, p,
          UpdatedApp(a, dto, Resolve(s.orgs, a.id, dto.defaultOrg).value,
                     Resolve(s.roles, a.id, dto.defaultRole).value));
      case RotateClientSecret(p, hash, now) =>
        ReplacingKeepsInvariant(env, s, p, WithClientSecret(s.apps[p], hash, now));
      case RotateWebhookSecret(p, secret) =>
        ReplacingKeepsInvariant(env, s, p, s.apps[p].(webhookSecret := Some(secret)));
      case Delete(p) =>
    }
  }

  lemma {:induction false} RunKeepsInvariant(env: Env, s: Store, calls: seq<Call>)
    requires Invariant(env, s)
    ensures Invariant(env, Run(env, s, calls))
  {
    if calls != [] {
      var n := |calls| - 1;
      RunKeepsInvariant(env, s, calls[..n]);
      ApplyKeepsInvariant(env, Run(env, s, calls[..n]), calls[n].op, calls[n].allowed);
    }
  }

  // ----- What can happen to the platform's own app

  /** The call is a rotation of `p`'s secrets that goes through and brings a value the row does not hold. */
  predicate Rotates(call: Call, p: string, a: App) {
    call.allowed &&
    match call.op
    case RotateClientSecret(q, hash, now) =>
      q == p && (a.clientSecretHash, a.clientSecretUpdatedAt) != (Some(hash), Some(now))
    case RotateWebhookSecret(q, secret) => q == p && IsUsable(a.webhookUrl) && a.webhookSecret != Some(secret)
    case _ => false
  }

  /** Update and delete never change the platform's row.  The rotations, which do not check whose app
      it is, change it whenever they go through with a new value. */
  lemma PlatformAppChangesIffRotated(env: Env, s: Store, call: Call, p: string)
    requires p in s.apps && s.apps[p].isPlatform
    ensures var next := Apply(env, s, call.op, call.allowed);
      p in next.apps && (next.apps[p] != s.apps[p] <==> Rotates(call, p, s.apps[p]))
  {
  }

  lemma ApplyRotates(env: Env, s: Store, call: Call, p: string)
    requires p in s.apps && s.apps[p].isPlatform
    ensures var next := Apply(env, s, call.op, call.allowed);
      p in next.apps && next.apps[p] == Rotated(s.apps[p], p, [call])
  {
    assert [call][..0] == [];
  }

  /** The row with the secrets of the last rotations of `p` that go through. */
  function Rotated(a: App, p: string, calls: seq<Call>): App {
    if calls == [] then a
    else
      var (before, call) := (Rotated(a, p, calls[..|calls| - 1]), calls[|calls| - 1]);
      if !call.allowed then before
      else
        match call.op
        case RotateClientSecret(q, hash, now) => if q == p then WithClientSecret(before, hash, now) else before
        case RotateWebhookSecret(q, secret) =>
          if q == p && IsUsable(a.webhookUrl) then before.(webhookSecret := Some(secret)) else before
        case _ => before
  }

  lemma {:induction false} RotatedKeepsTheRest(a: App, p: string, calls: seq<Call>)
    ensures var b := Rotated(a, p, calls);
      b == a.(webhookSecret := b.webhookSecret, clientSecretHash := b.clientSecretHash,
              clientSecretUpdatedAt := b.clientSecretUpdatedAt)
  {
    if calls != [] {
      RotatedKeepsTheRest(a, p, calls[..|calls| - 1]);
    }
  }

  /** Over every run the platform's app stays, and its row is the one the rotations among the calls
      leave; everything but the two secrets and the time of the client secret is as it was. */
  lemma {:induction false} PlatformAppIsRotatedOnly(env: Env, s: Store, calls: seq<Call>, p: string)
    requires p in s.apps && s.apps[p].isPlatform
    ensures p in Run(env, s, calls).apps
    ensures Run(env, s, calls).apps[p] == Rotated(s.apps[p], p, calls)
    ensures var (a, b) := (s.apps[p], Run(env, s, calls).apps[p]);
      b == a.(webhookSecret := b.webhookSecret, clientSecretHash := b.clientSecretHash,
              clientSecretUpdatedAt := b.clientSecretUpdatedAt)
  {
    RotatedKeepsTheRest(s.apps[p], p, calls);
    if calls != [] {
      var n := |calls| - 1;
      PlatformAppIsRotatedOnly(env, s, calls[..n], p);
      ApplyRotates(env, Run(env, s, calls[..n]), calls[n], p);
      assert [calls[n]][..0] == [];
    }
  }

  ghost predicate SameAfter(env: Env, s: Store, calls: seq<Call>, p: string)
    requires p in s.apps
  {
    p in Run(env, s, calls).apps && Run(env, s, calls).apps[p] == s.apps[p]
  }

  /** At every moment of the run the app is there and its row is the one it started with. */
  ghost predicate AlwaysTheSame(env: Env, s: Store, calls: seq<Call>, p: string)
    requires p in s.apps
  {
    forall n :: 0 <= n <= |calls| ==> SameAfter(env, s, calls[..n], p)
  }

  /** No call of the run is a rotation of the app's secrets that brings a value other than `a` holds. */
  ghost predicate NeverRotated(calls: seq<Call>, p: string, a: App) {
    forall i :: 0 <= i < |calls| ==> !Rotates(calls[i], p, a)
  }

  lemma NeverRotatedNext(calls: seq<Call>, p: string, a: App)
    requires calls != []
    ensures var n := |calls| - 1;
      NeverRotated(calls, p, a) <==> NeverRotated(calls[..n], p, a) && !Rotates(calls[n], p, a)
  {
    assert forall i :: 0 <= i < |calls| - 1 ==> calls[..|calls| - 1][i] == calls[i];
  }

  lemma AlwaysTheSameNext(env: Env, s: Store, calls: seq<Call>, p: string)
    requires p in s.apps && calls != []
    ensures AlwaysTheSame(env, s, calls, p) <==>
      AlwaysTheSame(env, s, calls[..|calls| - 1], p) && SameAfter(env, s, calls, p)
  {
    var n := |calls| - 1;
    assert calls[..n + 1] == calls;
    assert forall k :: 0 <= k <= n ==> calls[..n][..k] == calls[..k];
  }

  /** A run leaves the platform's row alone throughout exactly if no call in it is a rotation of its
      secrets that goes through with a new value. */
  lemma {:induction false} PlatformAppIsUntouchedIffNeverRotated(env: Env, s: Store, calls: seq<Call>, p: string)
    requires p in s.apps && s.apps[p].isPlatform
    ensures AlwaysTheSame(env, s, calls, p) <==> NeverRotated(calls, p, s.apps[p])
  {
    if calls == [] {
      assert calls[..0] == [];
    } else {
      var n := |calls| - 1;
      PlatformAppIsUntouchedIffNeverRotated(env, s, calls[..n], p);
      AlwaysTheSameNext(env, s, calls, p);
      NeverRotatedNext(calls, p, s.apps[p]);
      if SameAfter(env, s, calls[..n], p) {
        PlatformAppChangesIffRotated(env, Run(env, s, calls[..n]), calls[n], p);
      } else {
        assert !AlwaysTheSame(env, s, calls[..n], p) by { assert calls[..n][..n] == calls[..n]; }
      }
    }
  }

  /** Deleting undoes creating: every app that was there is there again, and no other. */
  lemma DeleteUndoesCreate(env: Env, s: Store, dto: CreateDto)
    requires CreateError(env, s, dto, true).None? && !HasDependents(s, s.nextId)
    ensures var middle := Apply(env, s, Create(dto), true);
      ErrorOf(env, middle, Delete(env.encodeId(s.nextId)), true).None?
      && Apply(env, middle, Delete(env.encodeId(s.nextId)), true) == s.(nextId := s.nextId + 1)
  {
    var p := env.encodeId(s.nextId);
    assert s.apps[p := NewApp(s.nextId, dto)] - {p} == s.apps;
  }

  // ----- What a run leaves as it was

  datatype Field =
    | NameField | UrlField | ColumnField(column: Column) | RedirectsField | DefaultOrgField | DefaultRoleField
    | PasswordField | WebhookUrlField | WebhookSecretField | EmailField | EmailMethodField | ClientSecretField
    | IdentityField

  ghost predicate SameIn(f: Field, a: App, b: App) {
    match f
    case NameField => a.name == b.name
    case UrlField => a.url == b.url
    case ColumnField(c) => (c in a.columns <==> c in b.columns) && (c in a.columns ==> a.columns[c] == b.columns[c])
    case RedirectsField => a.redirects == b.redirects
    case DefaultOrgField => a.defaultOrg == b.defaultOrg
    case DefaultRoleField => a.defaultRole == b.defaultRole
    case PasswordField => a.passwordOverride == b.passwordOverride
    case WebhookUrlField => a.webhookUrl == b.webhookUrl
    case WebhookSecretField => a.webhookSecret == b.webhookSecret
    case EmailField => a.emailOverride == b.emailOverride
    case EmailMethodField => a.emailMethod == b.emailMethod
    case ClientSecretField =>
      a.clientSecretHash == b.clientSecretHash && a.clientSecretUpdatedAt == b.clientSecretUpdatedAt
    case IdentityField => a.id == b.id && a.isPlatform == b.isPlatform
  }

  /** The request carries the field.  Clearing the webhook URL carries the secret's removal with it. */
  predicate Carries(dto: UpdateDto, f: Field) {
    match f
    case NameField => dto.name.Some?
    case UrlField => dto.url.Some?
    case ColumnField(c) => c in dto.columns
    case RedirectsField => dto.redirects.Some?
    case DefaultOrgField => dto.defaultOrg.Some?
    case DefaultRoleField => dto.defaultRole.Some?
    case PasswordField => dto.passwordOverride.Some?
    case WebhookUrlField => dto.webhookUrl.Some?
    case WebhookSecretField => dto.webhookUrl == Some(None)
    case EmailField => dto.emailOverride.Some?
    case EmailMethodField => dto.emailMethod.Some?
    case ClientSecretField => false
    case IdentityField => false
  }

  /** The call is about app `p` and its field `f`. */
  predicate Writes(call: Call, p: string, f: Field) {
    call.allowed &&
    match call.op
    case Create(_) => false
    case Update(q, dto) => q == p && Carries(dto, f)
    case RotateClientSecret(q, _, _) => q == p && f == ClientSecretField
    case RotateWebhookSecret(q, _) => q == p && f == WebhookSecretField
    case Delete(_) => false
  }

  ghost predicate GoesThrough(env: Env, s: Store, call: Call) { ErrorOf(env, s, call.op, call.allowed).None? }

  lemma UpdateKeepsField(a: App, dto: UpdateDto, org: Option<Option<nat>>, role: Option<Option<nat>>, f: Field)
    requires !Carries(dto, f) && (dto.defaultOrg.None? ==> org.None?) && (dto.defaultRole.None? ==> role.None?)
    ensures SameIn(f, a, UpdatedApp(a, dto, org, role))
  {
  }

  lemma UpdateKeepsFieldIn(env: Env, s: Store, p: string, dto: UpdateDto, f: Field)
    requires UpdateError(env, s, p, dto, true).None? && !Carries(dto, f)
    ensures SameIn(f, s.apps[p], Apply(env, s, Update(p, dto), true).apps[p])
  {
    var a := s.apps[p];
    UpdateKeepsField(a, dto, Resolve(s.orgs, a.id, dto.defaultOrg).value,
                     Resolve(s.roles, a.id, dto.defaultRole).value, f);
  }

  lemma FieldsMatchThemselves(f: Field, a: App)
    ensures SameIn(f, a, a)
  {
  }

  lemma RotationKeepsField(f: Field, a: App, hash: string, now: int, secret: string)
    ensures f != ClientSecretField ==> SameIn(f, a, WithClientSecret(a, hash, now))
    ensures f != WebhookSecretField ==> SameIn(f, a, a.(webhookSecret := Some(secret)))
  {
  }

  /** An app that is there after a call was there before, unless the call made it under a new id, and
      is the same unless the call was about it. */
  lemma OnlyItsOwnAppChanges(env: Env, s: Store, call: Call, p: string)
    requires var next := Apply(env, s, call.op, call.allowed); p in next.apps && next.apps[p].id < s.nextId
    ensures p in s.apps
    ensures var next := Apply(env, s, call.op, call.allowed);
      next.apps[p] == s.apps[p]
      || (ErrorOf(env, s, call.op, call.allowed).None? && !call.op.Create? && !call.op.Delete? && call.op.publicId == p)
  {
  }

  lemma ApplyKeepsField(env: Env, s: Store, call: Call, p: string, f: Field)
    requires var next := Apply(env, s, call.op, call.allowed); p in next.apps && next.apps[p].id < s.nextId
    requires !(GoesThrough(env, s, call) && Writes(call, p, f))
    ensures var next := Apply(env, s, call.op, call.allowed);
      p in s.apps && s.apps[p].id == next.apps[p].id && SameIn(f, s.apps[p], next.apps[p])
  {
    OnlyItsOwnAppChanges(env, s, call, p);
    FieldsMatchThemselves(f, s.apps[p]);
    if Apply(env, s, call.op, call.allowed).apps[p] != s.apps[p] {
      match call.op
      case Update(_, dto) => UpdateKeepsFieldIn(env, s, p, dto, f);
      case RotateClientSecret(_, hash, now) => RotationKeepsField(f, s.apps[p], hash, now, "");
      case RotateWebhookSecret(_, secret) => RotationKeepsField(f, s.apps[p], "", 0, secret);
    }
  }

  lemma {:induction false} IdsOnlyGrow(env: Env, s: Store, calls: seq<Call>)
    ensures s.nextId <= Run(env, s, calls).nextId
  {
    if calls != [] {
      IdsOnlyGrow(env, s, calls[..|calls| - 1]);
    }
  }

  /** Whatever is called in whatever order, an app that is still the same one has every field as it was
      that no call of the run on that very app went through with. */
  lemma {:induction false} UnwrittenFieldsAreKept(env: Env, s: Store, calls: seq<Call>, p: string, f: Field)
    requires var after := Run(env, s, calls); p in after.apps && after.apps[p].id < s.nextId
    requires forall i :: 0 <= i < |calls| ==>
      !(GoesThrough(env, Run(env, s, calls[..i]), calls[i]) && Writes(calls[i], p, f))
    ensures p in s.apps && s.apps[p].id == Run(env, s, calls).apps[p].id
    ensures SameIn(f, s.apps[p], Run(env, s, calls).apps[p])
  {
    if calls != [] {
      var n := |calls| - 1;
      IdsOnlyGrow(env, s, calls[..n]);
      ApplyKeepsField(env, Run(env, s, calls[..n]), calls[n], p, f);
      forall i | 0 <= i < n
        ensures !(GoesThrough(env, Run(env, s, calls[..n][..i]), calls[..n][i]) && Writes(calls[..n][i], p, f))
      {
        assert calls[..n][..i] == calls[..i];
      }
      UnwrittenFieldsAreKept(env, s, calls[..n], p, f);
    }
  }

  // ----- What a run writes

  /** The id that a request for a default org or role stands for: that of the row it names, which must be
      one of the app's own, or none. */
  predicate IsNamedRow(rows: map<string, Owned>, appId: nat, choice: Option<Option<string>>, stored: Option<nat>) {
    match choice
    case Some(Some(publicId)) =>
      publicId in rows && rows[publicId].appId == appId && stored == Some(rows[publicId].id)
    case Some(None) => stored == None
    case None => false
  }

  /** The row holds in a field what the request says. */
  predicate HoldsUpdate(s: Store, a: App, dto: UpdateDto, f: Field) {
    match f
    case NameField => dto.name == Some(a.name)
    case UrlField => dto.url == Some(a.url)
    case ColumnField(c) => c in dto.columns && c in a.columns && a.columns[c] == dto.columns[c]
    case RedirectsField => dto.redirects == Some(a.redirects)
    case DefaultOrgField => IsNamedRow(s.orgs, a.id, dto.defaultOrg, a.defaultOrg)
    case DefaultRoleField => IsNamedRow(s.roles, a.id, dto.defaultRole, a.defaultRole)
    case PasswordField => dto.passwordOverride == Some(a.passwordOverride)
    case WebhookUrlField => dto.webhookUrl == Some(a.webhookUrl)
    case WebhookSecretField => a.webhookSecret == None
    case EmailField => dto.emailOverride == Some(a.emailOverride)
    case EmailMethodField => dto.emailMethod == Some(a.emailMethod)
    case ClientSecretField => false
    case IdentityField => false
  }

  /** A new app has what its request says, and otherwise nothing: no defaults, overrides or secrets. */
  predicate HoldsCreate(a: App, dto: CreateDto, f: Field) {
    match f
    case NameField => a.name == dto.name
    case UrlField => a.url == dto.url
    case ColumnField(c) =>
      (c in a.columns <==> c in dto.columns) && (c in dto.columns ==> a.columns[c] == dto.columns[c])
    case RedirectsField => a.redirects == if dto.redirects.Some? then dto.redirects.value else []
    case DefaultOrgField => a.defaultOrg == None
    case DefaultRoleField => a.defaultRole == None
    case PasswordField => a.passwordOverride == None
    case WebhookUrlField => a.webhookUrl == None
    case WebhookSecretField => a.webhookSecret == None
    case EmailField => a.emailOverride == None
    case EmailMethodField => a.emailMethod == "link"
    case ClientSecretField => a.clientSecretHash == None && a.clientSecretUpdatedAt == None
    case IdentityField => !a.isPlatform
  }

  /** The row holds in a field what a call about that field brought. */
  predicate Holds(s: Store, a: App, op: Op, f: Field) {
    match op
    case Create(dto) => HoldsCreate(a, dto, f)
    case Update(_, dto) => HoldsUpdate(s, a, dto, f)
    case RotateClientSecret(_, hash, now) => a.clientSecretHash == Some(hash) && a.clientSecretUpdatedAt == Some(now)
    case RotateWebhookSecret(_, secret) => a.webhookSecret == Some(secret)
    case Delete(_) => false
  }

  /** The call goes through and is about field `f` of app `p`; creating an app is about all its fields. */
  ghost predicate Lands(env: Env, s: Store, call: Call, p: string, f: Field) {
    GoesThrough(env, s, call) && (Writes(call, p, f) || (call.op.Create? && p == env.encodeId(s.nextId)))
  }

  /** From call number `k` on, none lands on the field. */
  ghost predicate NothingLandsFrom(env: Env, s: Store, calls: seq<Call>, k: nat, p: string, f: Field) {
    forall j :: k <= j < |calls| ==> !Lands(env, Run(env, s, calls[..j]), calls[j], p, f)
  }

  lemma UpdateLands(env: Env, s: Store, p: string, dto: UpdateDto, f: Field)
    requires UpdateError(env, s, p, dto, true).None? && Carries(dto, f)
    ensures HoldsUpdate(s, Apply(env, s, Update(p, dto), true).apps[p], dto, f)
  {
  }

  lemma LandingHolds(env: Env, s: Store, call: Call, p: string, f: Field)
    requires Lands(env, s, call, p, f)
    ensures var next := Apply(env, s, call.op, call.allowed); p in next.apps && Holds(s, next.apps[p], call.op, f)
  {
    if call.op.Update? {
      UpdateLands(env, s, p, call.op.updateDto, f);
    }
  }

  lemma HoldingIsByField(s: Store, a: App, b: App, op: Op, f: Field)
    requires Holds(s, a, op, f) && SameIn(f, a, b) && a.id == b.id
    requires op.RotateClientSecret? ==> f == ClientSecretField
    requires op.RotateWebhookSecret? ==> f == WebhookSecretField
    ensures Holds(s, b, op, f)
  {
  }

  lemma {:induction false} OthersRowsStay(env: Env, s: Store, calls: seq<Call>)
    ensures Run(env, s, calls).orgs == s.orgs && Run(env, s, calls).roles == s.roles
    ensures Run(env, s, calls).permissionApps == s.permissionApps
  {
    if calls != [] {
      OthersRowsStay(env, s, calls[..|calls| - 1]);
    }
  }

  lemma RunNext(env: Env, s: Store, calls: seq<Call>, call: Call)
    ensures Run(env, s, calls + [call]) == Apply(env, Run(env, s, calls), call.op, call.allowed)
  {
    assert (calls + [call])[..|calls|] == calls;
  }

  /** Over every run, the last call that goes through and is about a field decides what the app holds in
      it: the value given, clearing included, or for a created app the values it was created with. */
  lemma {:induction false} LastWriteDecides(env: Env, s: Store, calls: seq<Call>, i: nat, p: string, f: Field)
    requires Invariant(env, s) && i < |calls| && Lands(env, Run(env, s, calls[..i]), calls[i], p, f)
    requires NothingLandsFrom(env, s, calls, i + 1, p, f)
    requires p in Run(env, s, calls).apps && p in Run(env, s, calls[..i + 1]).apps
    requires Run(env, s, calls).apps[p].id == Run(env, s, calls[..i + 1]).apps[p].id
    ensures Holds(s, Run(env, s, calls).apps[p], calls[i].op, f)
  {
    OthersRowsStay(env, s, calls[..i]);
    LandingHolds(env, Run(env, s, calls[..i]), calls[i], p, f);
    RunNext(env, s, calls[..i], calls[i]);
    assert calls[..i] + [calls[i]] == calls[..i + 1];
    KeptSince(env, s, calls, i + 1, p, f);
    HoldingIsByField(s, Run(env, s, calls[..i + 1]).apps[p], Run(env, s, calls).apps[p], calls[i].op, f);
  }

  lemma RestOfRun(env: Env, s: Store, calls: seq<Call>, k: nat, j: nat)
    requires k + j <= |calls|
    ensures Run(env, Run(env, s, calls[..k]), calls[k..][..j]) == Run(env, s, calls[..k + j])
  {
    assert calls[k..][..j] == calls[k..k + j];
    assert calls[..k + j][..k] == calls[..k] && calls[..k + j][k..] == calls[k..k + j];
    assert calls[..k + j] == calls[..k + j][..k] + calls[..k + j][k..];
    RunConcat(env, s, calls[..k], calls[k..k + j]);
  }

  /** Since call number `k` no call landed on the field, so it is as it was then. */
  lemma KeptSince(env: Env, s: Store, calls: seq<Call>, k: nat, p: string, f: Field)
    requires Invariant(env, s) && k <= |calls| && p in Run(env, s, calls).apps && p in Run(env, s, calls[..k]).apps
    requires NothingLandsFrom(env, s, calls, k, p, f)
    requires Run(env, s, calls).apps[p].id == Run(env, s, calls[..k]).apps[p].id
    ensures SameIn(f, Run(env, s, calls[..k]).apps[p], Run(env, s, calls).apps[p])
  {
    var (middle, rest) := (Run(env, s, calls[..k]), calls[k..]);
    RunKeepsInvariant(env, s, calls[..k]);
    RestOfRun(env, s, calls, k, |rest|);
    assert rest[..|rest|] == rest && calls[..k + |rest|] == calls;
    forall j | 0 <= j < |rest|
      ensures !(GoesThrough(env, Run(env, middle, rest[..j]), rest[j]) && Writes(rest[j], p, f))
    {
      RestOfRun(env, s, calls, k, j);
      assert !Lands(env, Run(env, s, calls[..k + j]), calls[k + j], p, f);
    }
    UnwrittenFieldsAreKept(env, middle, rest, p, f);
  }

  lemma {:induction false} RunConcat(env: Env, s: Store, a: seq<Call>, b: seq<Call>)
    ensures Run(env, s, a + b) == Run(env, Run(env, s, a), b)
  {
    if b == [] {
      assert a + b == a;
    } else {
      assert (a + b)[..|a + b| - 1] == a + b[..|b| - 1];
      RunConcat(env, s, a, b[..|b| - 1]);
    }
  }

  // ----- Which calls go through

  function Permitted(calls: seq<Call>): seq<Call> {
    if calls == [] then []
    else Permitted(calls[..|calls| - 1]) + if calls[|calls| - 1].allowed then [calls[|calls| - 1]] else []
  }

  lemma UnpermittedFails(env: Env, s: Store, call: Call)
    requires !call.allowed
    ensures !GoesThrough(env, s, call) && Apply(env, s, call.op, call.allowed) == s
  {
  }

  /** Calls without the permission might as well not be made. */
  lemma {:induction false} UnpermittedCallsChangeNothing(env: Env, s: Store, calls: seq<Call>)
    ensures Run(env, s, calls) == Run(env, s, Permitted(calls))
  {
    if calls != [] {
      var (before, last) := (calls[..|calls| - 1], calls[|calls| - 1]);
      UnpermittedCallsChangeNothing(env, s, before);
      if last.allowed {
        RunNext(env, s, Permitted(before), last);
      } else {
        UnpermittedFails(env, Run(env, s, before), last);
        assert Permitted(before) + [] == Permitted(before);
      }
    }
  }

  /** An app with the fields the request carries, and those of `a` otherwise. */
  ghost predicate IsUpdateOf(s: Store, a: App, dto: UpdateDto, b: App) {
    a.id == b.id && forall f :: if Carries(dto, f) then HoldsUpdate(s, b, dto, f) else SameIn(f, a, b)
  }

  /** The service accepts a permitted update of an ordinary app exactly if it says something and some
      valid app with a free name is what it asks for. */
  lemma UpdateIsAcceptedIffResultIsValid(env: Env, s: Store, p: string, dto: UpdateDto, allowed: bool)
    requires Invariant(env, s)
    ensures UpdateError(env, s, p, dto, allowed).None? <==>
      && allowed && p in s.apps && !s.apps[p].isPlatform && (exists f :: Carries(dto, f))
      && exists b :: IsUpdateOf(s, s.apps[p], dto, b) && ValidApp(env, s.orgs, s.roles, b)
           && forall q :: q in s.apps && q != p ==> s.apps[q].name != b.name
  {
    assert IsEmptyUpdate(dto) <==> forall f :: !Carries(dto, f) by { EmptyCarriesNothing(dto); }
    if UpdateError(env, s, p, dto, allowed).None? {
      AcceptedResultIsValid(env, s, p, dto);
    }
    if allowed && p in s.apps && !s.apps[p].isPlatform && (exists f :: Carries(dto, f)) {
      forall b | IsUpdateOf(s, s.apps[p], dto, b) && ValidApp(env, s.orgs, s.roles, b)
          && forall q :: q in s.apps && q != p ==> s.apps[q].name != b.name
        ensures UpdateError(env, s, p, dto, true).None?
      {
        ValidResultIsAccepted(env, s, p, dto, b);
      }
    }
  }

  lemma EmptyCarriesNothing(dto: UpdateDto)
    ensures IsEmptyUpdate(dto) <==> forall f :: !Carries(dto, f)
  {
    if !IsEmptyUpdate(dto) {
      if dto.columns != map[] {
        var c :| c in dto.columns;
        assert Carries(dto, ColumnField(c));
      } else {
        assert Carries(dto, NameField) || Carries(dto, UrlField) || Carries(dto, RedirectsField)
            || Carries(dto, DefaultOrgField) || Carries(dto, DefaultRoleField) || Carries(dto, PasswordField)
            || Carries(dto, WebhookUrlField) || Carries(dto, EmailField) || Carries(dto, EmailMethodField);
      }
    }
  }

  lemma AcceptedResultIsValid(env: Env, s: Store, p: string, dto: UpdateDto)
    requires Invariant(env, s) && UpdateError(env, s, p, dto, true).None?
    ensures var b := Apply(env, s, Update(p, dto), true).apps[p];
      IsUpdateOf(s, s.apps[p], dto, b) && ValidApp(env, s.orgs, s.roles, b)
      && forall q :: q in s.apps && q != p ==> s.apps[q].name != b.name
  {
    UpdatedIsValid(env, s, p, dto);
    forall f
      ensures var b := Apply(env, s, Update(p, dto), true).apps[p];
        if Carries(dto, f) then HoldsUpdate(s, b, dto, f) else SameIn(f, s.apps[p], b)
    {
      if Carries(dto, f) {
        UpdateLands(env, s, p, dto, f);
      } else {
        UpdateKeepsFieldIn(env, s, p, dto, f);
      }
    }
  }

  lemma GivenPartsAreValid(env: Env, s: Store, a: App, dto: UpdateDto, b: App)
    requires IsUpdateOf(s, a, dto, b) && ValidApp(env, s.orgs, s.roles, b)
    ensures dto.redirects.Some? ==> ValidRedirects(env, dto.redirects.value)
    ensures SetsTo(dto.passwordOverride, o => ValidOverride(o)) && SetsTo(dto.emailOverride, e => ValidBranding(env, e))
    ensures dto.emailMethod.Some? ==> dto.emailMethod.value in {"link", "code"}
  {
    assert Carries(dto, RedirectsField) ==> HoldsUpdate(s, b, dto, RedirectsField);
    assert Carries(dto, PasswordField) ==> HoldsUpdate(s, b, dto, PasswordField);
    assert Carries(dto, EmailField) ==> HoldsUpdate(s, b, dto, EmailField);
    assert Carries(dto, EmailMethodField) ==> HoldsUpdate(s, b, dto, EmailMethodField);
  }

  lemma NamedRowsResolve(s: Store, a: App, dto: UpdateDto, b: App)
    requires IsUpdateOf(s, a, dto, b)
    ensures Resolve(s.orgs, a.id, dto.defaultOrg).Ok? && Resolve(s.roles, a.id, dto.defaultRole).Ok?
  {
    assert Carries(dto, DefaultOrgField) ==> HoldsUpdate(s, b, dto, DefaultOrgField);
    assert Carries(dto, DefaultRoleField) ==> HoldsUpdate(s, b, dto, DefaultRoleField);
  }

  lemma ValidResultIsAccepted(env: Env, s: Store, p: string, dto: UpdateDto, b: App)
    requires p in s.apps && !s.apps[p].isPlatform && !IsEmptyUpdate(dto)
    requires IsUpdateOf(s, s.apps[p], dto, b) && ValidApp(env, s.orgs, s.roles, b)
    requires forall q :: q in s.apps && q != p ==> s.apps[q].name != b.name
    ensures UpdateError(env, s, p, dto, true).None?
  {
    GivenPartsAreValid(env, s, s.apps[p], dto, b);
    NamedRowsResolve(s, s.apps[p], dto, b);
    assert Carries(dto, NameField) ==> HoldsUpdate(s, b, dto, NameField);
  }

  /** An app is named by nothing: no org, no role and no permission belongs to it. */
  ghost predicate IsFree(s: Store, appId: nat) {
    && (forall k :: k in s.orgs ==> s.orgs[k].appId != appId)
    && (forall k :: k in s.roles ==> s.roles[k].appId != appId)
    && appId !in s.permissionApps
  }

  /** Creating needs the permission, valid redirects and a free name and id; rotations need the
      permission, the app and, for a webhook, a usable URL; deleting needs the permission, an app that
      is not the platform's own and that nothing belongs to. */
  lemma OtherCallsAreAcceptedIff(env: Env, s: Store, call: Call)
    ensures match call.op
      case Create(dto) =>
        GoesThrough(env, s, call) <==>
          && call.allowed && (dto.redirects.Some? ==> ValidRedirects(env, dto.redirects.value))
          && (forall p :: p in s.apps ==> s.apps[p].name != dto.name) && env.encodeId(s.nextId) !in s.apps
      case Update(_, _) => true
      case RotateClientSecret(p, _, _) => GoesThrough(env, s, call) <==> call.allowed && p in s.apps
      case RotateWebhookSecret(p, _) =>
        GoesThrough(env, s, call) <==>
          call.allowed && p in s.apps && s.apps[p].webhookUrl.Some? && s.apps[p].webhookUrl.value != ""
      case Delete(p) =>
        GoesThrough(env, s, call) <==> call.allowed && p in s.apps && !s.apps[p].isPlatform && IsFree(s, s.apps[p].id)
  {
  }

  /** Why a call is turned down: Forbidden is for the permission and the platform's app, NotFound for an
      app that is not there, Conflict for a taken name or id and for an app that something belongs to. */
  lemma ErrorsSayWhy(env: Env, s: Store, call: Call)
    ensures var (error, op) := (ErrorOf(env, s, call.op, call.allowed), call.op);
      var heard := !(op.Update? && IsEmptyUpdate(op.updateDto));
      var found := !op.Create? && op.publicId in s.apps;
      && (heard && !call.allowed ==> error == Some(Forbidden))
      && (heard && call.allowed && !op.Create? && !found ==> error == Some(NotFound))
      && (heard && call.allowed && found && (op.Update? || op.Delete?) && s.apps[op.publicId].isPlatform ==>
            error == Some(Forbidden))
      && (error == Some(Forbidden) && call.allowed ==> found && s.apps[op.publicId].isPlatform)
      && (error == Some(NotFound) ==> (!op.Create? && !found) || op.Update?)
      && (error == Some(Conflict) ==>
            match op
            case Create(dto) =>
              env.encodeId(s.nextId) in s.apps || exists p :: p in s.apps && s.apps[p].name == dto.name
            case Update(p, dto) => exists q :: q in s.apps && q != p && dto.name == Some(s.apps[q].name)
            case Delete(p) => found && !IsFree(s, s.apps[p].id)
            case _ => false)
      && (!heard ==> error == Some(BadRequest))
  {
  }

  /** Every org, role and permission belongs to an app that exists. */
  ghost predicate NothingDangles(s: Store) {
    forall appId :: !IsFree(s, appId) ==> exists p :: p in s.apps && s.apps[p].id == appId
  }

  /** No run deletes an app from under its orgs, roles or permissions. */
  lemma {:induction false} NothingIsOrphaned(env: Env, s: Store, calls: seq<Call>)
    requires NothingDangles(s)
    ensures NothingDangles(Run(env, s, calls))
  {
    if calls != [] {
      var n := |calls| - 1;
      NothingIsOrphaned(env, s, calls[..n]);
      ApplyOrphansNothing(env, Run(env, s, calls[..n]), calls[n]);
    }
  }

  lemma AppStaysUnlessFree(env: Env, s: Store, call: Call, p: string)
    requires p in s.apps
    ensures var next := Apply(env, s, call.op, call.allowed);
      (p in next.apps && next.apps[p].id == s.apps[p].id) || IsFree(s, s.apps[p].id)
  {
    OtherCallsAreAcceptedIff(env, s, call);
  }

  lemma ApplyOrphansNothing(env: Env, s: Store, call: Call)
    requires NothingDangles(s)
    ensures NothingDangles(Apply(env, s, call.op, call.allowed))
  {
    var next := Apply(env, s, call.op, call.allowed);
    assert next.orgs == s.orgs && next.roles == s.roles && next.permissionApps == s.permissionApps;
    forall appId | !IsFree(next, appId)
      ensures exists p :: p in next.apps && next.apps[p].id == appId
    {
      assert !IsFree(s, appId);
      var p :| p in s.apps && s.apps[p].id == appId;
      AppStaysUnlessFree(env, s, call, p);
    }
  }

  /** What every stored app satisfies, whatever was called: redirects to web addresses of the two kinds
      and no two alike, bounded overrides, mail headers on one line and a known sign-up method. */
  lemma {:induction false} StoredAppsAreClean(env: Env, s: Store, calls: seq<Call>, p: string)
    requires Invariant(env, s) && p in Run(env, s, calls).apps
    ensures var a := Run(env, s, calls).apps[p];
      && (forall r :: r in a.redirects ==> env.isHttpUrl(r.uri) && (r.kind == "login" || r.kind == "post_logout"))
      && (forall i, j :: 0 <= i < j < |a.redirects| ==> a.redirects[i] != a.redirects[j])
      && (a.emailMethod == "link" || a.emailMethod == "code")
      && (a.passwordOverride.Some? ==>
            var o := a.passwordOverride.value;
            8 <= o.minLength <= 128 && 0 <= o.minNumbers <= o.minLength && 0 <= o.minSpecial <= o.minLength)
      && (a.emailOverride.Some? ==>
            var e := a.emailOverride.value;
            (forall field, c :: field in {e.fromName, e.fromAddress, e.subject} && field.Some? && c in field.value ==>
               c != '\r' && c != '\n')
            && (e.fromAddress.Some? ==> env.isAddress(e.fromAddress.value)))
  {
    RunKeepsInvariant(env, s, calls);
  }

  // ----- Half-configured webhooks

  /** A secret whose URL is missing or empty, for which rotation would refuse to make one. */
  predicate HalfConfigured(a: App) { a.webhookSecret.Some? && !IsUsable(a.webhookUrl) }

  ghost predicate NoneHalfConfigured(s: Store) { forall p :: p in s.apps ==> !HalfConfigured(s.apps[p]) }

  predicate SetsEmptyUrl(dto: UpdateDto) {
    dto.webhookUrl.Some? && dto.webhookUrl.value.Some? && dto.webhookUrl.value.value == ""
  }

  /** The call goes through and sets the URL of an app that has a secret to the empty text. */
  ghost predicate EmptiesUrl(env: Env, s: Store, call: Call) {
    && ErrorOf(env, s, call.op, call.allowed).None?
    && call.op.Update? && SetsEmptyUrl(call.op.updateDto)
    && s.apps[call.op.publicId].webhookSecret.Some?
  }

  /** Only the empty text half-configures a webhook: it is not the clearing that drops the secret. */
  lemma OnlyEmptyUrlHalfConfigures(env: Env, s: Store, call: Call)
    requires NoneHalfConfigured(s)
    ensures NoneHalfConfigured(Apply(env, s, call.op, call.allowed)) <==> !EmptiesUrl(env, s, call)
  {
    var next := Apply(env, s, call.op, call.allowed);
    if EmptiesUrl(env, s, call) {
      assert HalfConfigured(next.apps[call.op.publicId]);
    }
  }

  ghost predicate AlwaysConfigured(env: Env, s: Store, calls: seq<Call>) {
    forall n :: 0 <= n <= |calls| ==> NoneHalfConfigured(Run(env, s, calls[..n]))
  }

  ghost predicate NeverEmptiesUrl(env: Env, s: Store, calls: seq<Call>) {
    forall i :: 0 <= i < |calls| ==> !EmptiesUrl(env, Run(env, s, calls[..i]), calls[i])
  }

  lemma AlwaysConfiguredNext(env: Env, s: Store, calls: seq<Call>)
    requires calls != []
    ensures AlwaysConfigured(env, s, calls) <==>
      AlwaysConfigured(env, s, calls[..|calls| - 1]) && NoneHalfConfigured(Run(env, s, calls))
  {
    var n := |calls| - 1;
    assert calls[..n + 1] == calls;
    assert forall k :: 0 <= k <= n ==> calls[..n][..k] == calls[..k];
  }

  lemma NeverEmptiesUrlNext(env: Env, s: Store, calls: seq<Call>)
    requires calls != []
    ensures var n := |calls| - 1;
      NeverEmptiesUrl(env, s, calls) <==>
      NeverEmptiesUrl(env, s, calls[..n]) && !EmptiesUrl(env, Run(env, s, calls[..n]), calls[n])
  {
    var n := |calls| - 1;
    assert forall k :: 0 <= k <= n ==> calls[..n][..k] == calls[..k];
    forall i | 0 <= i < n
      ensures EmptiesUrl(env, Run(env, s, calls[..n][..i]), calls[..n][i]) ==
              EmptiesUrl(env, Run(env, s, calls[..i]), calls[i])
    {
    }
  }

  /** Webhooks stay configured in full throughout a run exactly if no call empties a URL so. */
  lemma {:induction false} HalfConfiguredIffUrlEmptied(env: Env, s: Store, calls: seq<Call>)
    requires NoneHalfConfigured(s)
    ensures AlwaysConfigured(env, s, calls) <==> NeverEmptiesUrl(env, s, calls)
    ensures AlwaysConfigured(env, s, calls) ==> NoneHalfConfigured(Run(env, s, calls))
  {
    if calls == [] {
      assert calls[..0] == [];
    } else {
      var n := |calls| - 1;
      HalfConfiguredIffUrlEmptied(env, s, calls[..n]);
      AlwaysConfiguredNext(env, s, calls);
      NeverEmptiesUrlNext(env, s, calls);
      if AlwaysConfigured(env, s, calls[..n]) {
        OnlyEmptyUrlHalfConfigures(env, Run(env, s, calls[..n]), calls[n]);
      }
    }
  }

  /** Requests that have passed the endpoint's URL check never carry the empty text; no run of them
      half-configures a webhook. */
  lemma {:induction false} NoRunHalfConfigures(env: Env, s: Store, calls: seq<Call>)
    requires NoneHalfConfigured(s)
    requires forall i :: 0 <= i < |calls| && calls[i].op.Update? ==> !SetsEmptyUrl(calls[i].op.updateDto)
    ensures NoneHalfConfigured(Run(env, s, calls))
  {
    HalfConfiguredIffUrlEmptied(env, s, calls);
  }

  // ----- Listing

  predicate MatchesSearch(a: App, text: string, fold: Fold) {
    text == "" || Like(SearchPattern(text), a.name, fold) || Like(SearchPattern(text), a.url, fold)
  }

  /** The rows a search finds, newest first, as the database returns them unpaged. */
  ghost predicate IsListing(s: Store, text: string, fold: Fold, rows: seq<App>) {
    && (forall a :: a in rows <==> a in s.apps.Values && MatchesSearch(a, text, fold))
    && (forall i, j :: 0 <= i < j < |rows| ==> rows[i].id > rows[j].id)
  }

  function Min(a: nat, b: nat): nat { if a < b then a else b }

  function PageOf(rows: seq<App>, page: nat, pageSize: nat): seq<App>
    requires page >= 1 && pageSize >= 1
  {
    var skip := (page - 1) * pageSize;
    rows[Min(skip, |rows|)..Min(skip + pageSize, |rows|)]
  }

  /** Row `i` of a listing stands on page i / pageSize + 1. */
  lemma RowIsOnItsPage(rows: seq<App>, pageSize: nat, i: nat)
    requires pageSize >= 1 && i < |rows|
    ensures rows[i] in PageOf(rows, i / pageSize + 1, pageSize)
  {
    var page := i / pageSize + 1;
    var skip := (page - 1) * pageSize;
    DivisionBounds(i, pageSize);
    assert PageOf(rows, page, pageSize)[i - skip] == rows[i];
  }

  /** Where a row found on a page stands in the listing. */
  lemma PageHoldsItsRows(rows: seq<App>, page: nat, pageSize: nat, a: App) returns (i: nat)
    requires page >= 1 && pageSize >= 1 && a in PageOf(rows, page, pageSize)
    ensures i < |rows| && rows[i] == a && i / pageSize + 1 == page
  {
    var skip := (page - 1) * pageSize;
    var k :| 0 <= k < |PageOf(rows, page, pageSize)| && PageOf(rows, page, pageSize)[k] == a;
    i := skip + k;
    Quotient(i, pageSize, page - 1);
  }

  /** A page shows at most so many rows, one after another as they stand in the listing. */
  lemma PageIsAStretch(rows: seq<App>, page: nat, pageSize: nat, k: nat)
    requires page >= 1 && pageSize >= 1 && k < |PageOf(rows, page, pageSize)|
    ensures |PageOf(rows, page, pageSize)| <= pageSize
    ensures (page - 1) * pageSize + k < |rows| && PageOf(rows, page, pageSize)[k] == rows[(page - 1) * pageSize + k]
  {
    MulMonotone(pageSize, 0, page - 1);
  }

  /** Turning the pages of a listing shows every row once: row `i` is on page i / pageSize + 1 and on
      no other. */
  lemma {:induction false} RowIsOnExactlyOnePage(
    s: Store, text: string, fold: Fold, rows: seq<App>, pageSize: nat, i: nat, page: nat)
    requires IsListing(s, text, fold, rows) && pageSize >= 1 && page >= 1 && i < |rows|
    ensures rows[i] in PageOf(rows, page, pageSize) <==> page == i / pageSize + 1
  {
    RowIsOnItsPage(rows, pageSize, i);
    if rows[i] in PageOf(rows, page, pageSize) {
      var j := PageHoldsItsRows(rows, page, pageSize, rows[i]);
      assert rows[j].id == rows[i].id;
    }
  }

  /** A search for a text without backslashes lists exactly the apps whose name or URL contains it. */
  lemma {:induction false} ListingIsLiteralSearch(s: Store, text: string, fold: Fold, rows: seq<App>, a: App)
    requires IsListing(s, text, fold, rows) && '\\' !in text
    ensures a in rows <==> a in s.apps.Values && (Contains(a.name, text, fold) || Contains(a.url, text, fold))
  {
    WithoutBackslashSearchIsLiteral(text, a.name, fold);
    WithoutBackslashSearchIsLiteral(text, a.url, fold);
    if text == "" {
      assert StartsWith(a.name[0..], text, fold);
    }
  }
}
