/**
 * The fixed-window limiter in front of the credential endpoints.
 *
 * `AuthRateLimiter` is the middleware closure: it owns the bucket map, evicts stale buckets and
 * decides one request at a time.  The reference is one client's own timeline, decided by
 * `ClientStep` with no other client and no eviction in sight.
 */
module AuthRateLimit {
  import opened Arithmetic
  import opened Basics

  const SENSITIVE_PREFIXES: seq<string> := [
    "/sign-in", "/sign-up", "/forget-password", "/reset-password", "/change-password",
    "/change-email", "/magic-link", "/email-otp", "/two-factor", "/send-verification-email"]

  const MOUNT_PREFIX: string := "/api/auth"

  /** The part of a path before its first '?'. */
  function WithoutQuery(path: string): string {
    if path == "" || path[0] == '?' then "" else [path[0]] + WithoutQuery(path[1..])
  }

  function Relative(path: string): string {
    if MOUNT_PREFIX <= path then path[|MOUNT_PREFIX|..] else path
  }

  /** `relative` is one of the credential endpoints or lies below one. */
  predicate IsCredentialPath(relative: string) {
    "/" <= relative &&
    exists i | 0 <= i < |SENSITIVE_PREFIXES| ::
      relative == SENSITIVE_PREFIXES[i] || SENSITIVE_PREFIXES[i] + "/" <= relative
  }

  predicate IsSensitive(path: string) { IsCredentialPath(Relative(WithoutQuery(path))) }

  lemma {:induction false} WithoutQueryOfPrefix(a: string, b: string)
    requires '?' !in a
    ensures WithoutQuery(a + b) == a + WithoutQuery(b)
  {
    if a == "" {
      assert a + b == b;
    } else {
      assert (a + b)[1..] == a[1..] + b;
      WithoutQueryOfPrefix(a[1..], b);
    }
  }

  lemma {:induction false} WithoutQueryIsPrefix(path: string)
    ensures WithoutQuery(path) <= path && '?' !in WithoutQuery(path)
    ensures WithoutQuery(path) != path ==> WithoutQuery(path) + "?" <= path
  {
    if path != "" && path[0] != '?' {
      WithoutQueryIsPrefix(path[1..]);
    }
  }

  /** Neither a query string nor the mount prefix changes how a path is classified. */
  lemma ClassificationIsStable(path: string, query: string)
    ensures IsSensitive(path + "?" + query) == IsSensitive(path)
    ensures !(MOUNT_PREFIX <= path) ==> IsSensitive(MOUNT_PREFIX + path) == IsSensitive(path)
  {
    WithoutQueryIsPrefix(path);
    var p := WithoutQuery(path);
    var rest := path[|p|..];
    assert path == p + rest && path + "?" + query == p + (rest + "?" + query);
    WithoutQueryOfPrefix(p, rest);
    WithoutQueryOfPrefix(p, rest + "?" + query);
    WithoutQueryOfPrefix(MOUNT_PREFIX, path);
    assert Relative(MOUNT_PREFIX + p) == p;
  }

  // ----- Which paths are sensitive

  /** The endpoints that carry a credential. */
  predicate CarriesCredential(endpoint: string) {
    endpoint in {
      "/sign-in", "/sign-up", "/forget-password", "/reset-password", "/change-password",
      "/change-email", "/magic-link", "/email-otp", "/two-factor", "/send-verification-email"}
  }

  lemma PrefixOf(endpoint: string) returns (i: nat)
    requires CarriesCredential(endpoint)
    ensures i < |SENSITIVE_PREFIXES| && SENSITIVE_PREFIXES[i] == endpoint
  {
    if endpoint == "/sign-in" { assert SENSITIVE_PREFIXES[0] == endpoint; return 0; }
    if endpoint == "/sign-up" { assert SENSITIVE_PREFIXES[1] == endpoint; return 1; }
    if endpoint == "/forget-password" { assert SENSITIVE_PREFIXES[2] == endpoint; return 2; }
    if endpoint == "/reset-password" { assert SENSITIVE_PREFIXES[3] == endpoint; return 3; }
    if endpoint == "/change-password" { assert SENSITIVE_PREFIXES[4] == endpoint; return 4; }
    if endpoint == "/change-email" { assert SENSITIVE_PREFIXES[5] == endpoint; return 5; }
    if endpoint == "/magic-link" { assert SENSITIVE_PREFIXES[6] == endpoint; return 6; }
    if endpoint == "/email-otp" { assert SENSITIVE_PREFIXES[7] == endpoint; return 7; }
    if endpoint == "/two-factor" { assert SENSITIVE_PREFIXES[8] == endpoint; return 8; }
    if endpoint == "/send-verification-email" { assert SENSITIVE_PREFIXES[9] == endpoint; return 9; }
  }

  lemma PrefixesCarryCredentials(i: nat)
    requires i < |SENSITIVE_PREFIXES|
    ensures CarriesCredential(SENSITIVE_PREFIXES[i]) && |SENSITIVE_PREFIXES[i]| >= 8
    ensures SENSITIVE_PREFIXES[i][0] == '/' && SENSITIVE_PREFIXES[i][1] != 'a' && '?' !in SENSITIVE_PREFIXES[i]
  {
  }

  /** Which of the ten prefixes a text can begin with, told by a few of its characters. */
  function Mark(s: string): int
    requires |s| >= 8
  {
    if s[1] == 'c' then (if |s| > 8 && s[8] == 'p' then 4 else 5)
    else if (s[1], s[2], s[6]) == ('s', 'i', 'i') then 0
    else if (s[1], s[2], s[6]) == ('s', 'i', 'u') then 1
    else if (s[1], s[2], s[6]) == ('f', 'o', 't') then 2
    else if (s[1], s[2], s[6]) == ('r', 'e', '-') then 3
    else if (s[1], s[2], s[6]) == ('m', 'a', '-') then 6
    else if (s[1], s[2], s[6]) == ('e', 'm', '-') then 7
    else if (s[1], s[2], s[6]) == ('t', 'w', 'a') then 8
    else if (s[1], s[2], s[6]) == ('s', 'e', 'v') then 9
    else -1
  }

  lemma MarkIsIndex(i: nat)
    requires i < |SENSITIVE_PREFIXES|
    ensures |SENSITIVE_PREFIXES[i]| >= 8 && Mark(SENSITIVE_PREFIXES[i]) == i
    ensures SENSITIVE_PREFIXES[i][1] == 'c' ==> |SENSITIVE_PREFIXES[i]| > 8
  {
  }

  /** No prefix begins another: a text begins with one of them at most. */
  lemma OnePrefixOnly(s: string, i: nat)
    requires i < |SENSITIVE_PREFIXES| && SENSITIVE_PREFIXES[i] <= s
    ensures |s| >= 8 && Mark(s) == i
  {
    MarkIsIndex(i);
    var p := SENSITIVE_PREFIXES[i];
    assert forall k :: 0 <= k < |p| ==> p[k] == s[k];
  }

  /** What decides for a path that begins with a credential endpoint: how it goes on. */
  lemma EndpointDecides(endpoint: string, rest: string)
    requires CarriesCredential(endpoint)
    ensures IsCredentialPath(endpoint + rest) <==> rest == "" || rest[0] == '/'
  {
    var i := PrefixOf(endpoint);
    var path := endpoint + rest;
    PrefixesCarryCredentials(i);
    assert path[..|endpoint|] == endpoint;
    if rest == "" {
      assert path == SENSITIVE_PREFIXES[i];
    } else if rest[0] == '/' {
      assert SENSITIVE_PREFIXES[i] + "/" <= path;
    }
    if j :| 0 <= j < |SENSITIVE_PREFIXES| && (path == SENSITIVE_PREFIXES[j] || SENSITIVE_PREFIXES[j] + "/" <= path) {
      assert SENSITIVE_PREFIXES[j] <= SENSITIVE_PREFIXES[j] + "/";
      OnePrefixOnly(path, i);
      OnePrefixOnly(path, j);
      assert rest != "" ==> path[|endpoint|] == rest[0];
    }
  }

  lemma RelativeOfMounted(mount: string, below: string)
    requires IsMount(mount) && |below| >= 2 && below[0] == '/' && below[1] != 'a'
    ensures Relative(mount + below) == below
  {
    var path := mount + below;
    if mount == "" {
      assert path == below;
    } else {
      assert mount == MOUNT_PREFIX && path[|MOUNT_PREFIX|..] == below;
    }
  }

  predicate IsMount(mount: string) { mount == "" || mount == "/api/auth" }

  lemma RelativeWithoutQuery(mount: string, endpoint: string, rest: string)
    requires IsMount(mount) && '?' !in endpoint && |endpoint| >= 2 && endpoint[0] == '/' && endpoint[1] != 'a'
    ensures Relative(WithoutQuery(mount + endpoint + rest)) == endpoint + WithoutQuery(rest)
  {
    WithoutQueryOfPrefix(mount + endpoint, rest);
    assert mount + endpoint + WithoutQuery(rest) == mount + (endpoint + WithoutQuery(rest));
    RelativeOfMounted(mount, endpoint + WithoutQuery(rest));
  }

  /** The ten endpoints and everything below them are sensitive, under the mount or not and whatever the
      query; a path that continues an endpoint with any other character is not. */
  lemma CredentialPathsAreSensitive(mount: string, endpoint: string, rest: string)
    requires IsMount(mount) && CarriesCredential(endpoint)
    ensures IsSensitive(mount + endpoint + rest) <==> rest == "" || rest[0] == '/' || rest[0] == '?'
  {
    var i := PrefixOf(endpoint);
    PrefixesCarryCredentials(i);
    RelativeWithoutQuery(mount, endpoint, rest);
    EndpointDecides(endpoint, WithoutQuery(rest));
  }

  lemma CredentialPathBegins(path: string) returns (endpoint: string, below: string)
    requires IsCredentialPath(path)
    ensures CarriesCredential(endpoint) && path == endpoint + below && (below == "" || below[0] == '/')
  {
    var i :| 0 <= i < |SENSITIVE_PREFIXES| && (path == SENSITIVE_PREFIXES[i] || SENSITIVE_PREFIXES[i] + "/" <= path);
    PrefixesCarryCredentials(i);
    endpoint := SENSITIVE_PREFIXES[i];
    below := path[|endpoint|..];
    assert path != endpoint ==> path[|endpoint|] == (endpoint + "/")[|endpoint|];
  }

  lemma QueryOf(path: string) returns (query: string)
    ensures path == WithoutQuery(path) + query && (query == "" || query[0] == '?')
  {
    WithoutQueryIsPrefix(path);
    var bare := WithoutQuery(path);
    query := path[|bare|..];
    assert query != "" ==> query[0] == (bare + "?")[|bare|];
  }

  lemma MountOf(bare: string) returns (mount: string)
    ensures IsMount(mount) && bare == mount + Relative(bare)
  {
    mount := if MOUNT_PREFIX <= bare then MOUNT_PREFIX else "";
  }

  /** And no other path is sensitive. */
  lemma OnlyCredentialPathsAreSensitive(path: string) returns (mount: string, endpoint: string, rest: string)
    requires IsSensitive(path)
    ensures IsMount(mount) && CarriesCredential(endpoint) && path == mount + endpoint + rest
    ensures rest == "" || rest[0] == '/' || rest[0] == '?'
  {
    var bare := WithoutQuery(path);
    var query := QueryOf(path);
    mount := MountOf(bare);
    var below;
    endpoint, below := CredentialPathBegins(Relative(bare));
    rest := below + query;
    Reassociate(mount, endpoint, below, query);
  }

  lemma Reassociate(mount: string, endpoint: string, below: string, query: string)
    ensures mount + (endpoint + below) + query == mount + endpoint + (below + query)
  {
  }

  lemma UnmarkedIsNoCredentialPath(path: string)
    requires |path| >= 8 && Mark(path) == -1
    ensures !IsCredentialPath(path)
  {
    if j :| 0 <= j < |SENSITIVE_PREFIXES| && (path == SENSITIVE_PREFIXES[j] || SENSITIVE_PREFIXES[j] + "/" <= path) {
      assert SENSITIVE_PREFIXES[j] <= SENSITIVE_PREFIXES[j] + "/";
      OnePrefixOnly(path, j);
    }
  }

  predicate IsSessionEndpoint(endpoint: string) { endpoint == "/get-session" || endpoint == "/sign-out" }

  lemma SessionEndpointsAreUnmarked(endpoint: string, tail: string)
    requires IsSessionEndpoint(endpoint)
    ensures |endpoint| >= 8 && endpoint[0] == '/' && endpoint[1] != 'a' && '?' !in endpoint
    ensures Mark(endpoint + tail) == -1
  {
  }

  /** Reading the session and signing out, which the console does all the time, are never counted. */
  lemma SessionReadsAreFree(mount: string, endpoint: string, rest: string)
    requires IsMount(mount) && IsSessionEndpoint(endpoint)
    ensures !IsSensitive(mount + endpoint + rest)
  {
    SessionEndpointsAreUnmarked(endpoint, WithoutQuery(rest));
    RelativeWithoutQuery(mount, endpoint, rest);
    UnmarkedIsNoCredentialPath(endpoint + WithoutQuery(rest));
  }

  datatype Config = Config(windowMs: int, max: int) {
    /** What the environment reader guarantees about the window. */
    predicate Valid() { windowMs > 0 }

    /** How many requests one window can admit: its opening request is never refused. */
    function Budget(): int { if max < 1 then 1 else max }
  }

  datatype Bucket = Bucket(count: int, windowStart: int)
  /** A request as the limiter sees it, its path already classified by `IsSensitive`. */
  datatype Request = Request(sensitive: bool, client: string, at: int)
  datatype Decision = Admit | Reject(retryAfterSeconds: int)

  function CeilDiv(n: int, d: int): int
    requires d > 0
  {
    (n + d - 1) / d
  }

  function RetryAfter(cfg: Config, windowStart: int, now: int): int {
    var s := CeilDiv(windowStart + cfg.windowMs - now, 1000);
    if s < 1 then 1 else s
  }

  // ----- The reference: one client, no eviction

  function ClientStep(cfg: Config, bucket: Option<Bucket>, now: int): (Bucket, Decision) {
    if bucket.None? || now - bucket.value.windowStart >= cfg.windowMs then (Bucket(1, now), Admit)
    else if bucket.value.count < cfg.max then (bucket.value.(count := bucket.value.count + 1), Admit)
    else (bucket.value, Reject(RetryAfter(cfg, bucket.value.windowStart, now)))
  }

  /** A client's bucket after the requests it made at `times`. */
  function ClientBucket(cfg: Config, times: seq<int>): Option<Bucket> {
    if times == [] then None
    else Some(ClientStep(cfg, ClientBucket(cfg, times[..|times| - 1]), times[|times| - 1]).0)
  }

  /** How a client's last request is answered, given all the times it ever asked. */
  function ClientDecision(cfg: Config, times: seq<int>): Decision
    requires times != []
  {
    ClientStep(cfg, ClientBucket(cfg, times[..|times| - 1]), times[|times| - 1]).1
  }

  predicate Counts(r: Request, client: string) { r.client == client && r.sensitive }

  /** When `client` made sensitive requests in `trace`. */
  function Timeline(trace: seq<Request>, client: string): seq<int> {
    if trace == [] then []
    else
      var r := trace[|trace| - 1];
      Timeline(trace[..|trace| - 1], client) + if Counts(r, client) then [r.at] else []
  }

  // ----- The limiter as it is: one map for everybody, swept on every sensitive request

  function Evict(cfg: Config, buckets: map<string, Bucket>, now: int): map<string, Bucket> {
    map k | k in buckets && now - buckets[k].windowStart < cfg.windowMs * 2 :: buckets[k]
  }

  function Lookup(buckets: map<string, Bucket>, client: string): Option<Bucket> {
    if client in buckets then Some(buckets[client]) else None
  }

  function Step(cfg: Config, buckets: map<string, Bucket>, r: Request): (map<string, Bucket>, Decision) {
    if !r.sensitive then (buckets, Admit)
    else
      var live := Evict(cfg, buckets, r.at);
      var (bucket, d) := ClientStep(cfg, Lookup(live, r.client), r.at);
      (live[r.client := bucket], d)
  }

  function Buckets(cfg: Config, trace: seq<Request>): map<string, Bucket> {
    if trace == [] then map[]
    else Step(cfg, Buckets(cfg, trace[..|trace| - 1]), trace[|trace| - 1]).0
  }

  /** The limiter's answer to request number `i` of a trace. */
  function Answer(cfg: Config, trace: seq<Request>, i: nat): Decision
    requires i < |trace|
  {
    Step(cfg, Buckets(cfg, trace[..i]), trace[i]).1
  }

  lemma OneMore(cfg: Config, trace: seq<Request>, r: Request, client: string)
    ensures Buckets(cfg, trace + [r]) == Step(cfg, Buckets(cfg, trace), r).0
    ensures var (times, after) := (Timeline(trace, client), Timeline(trace + [r], client));
      if Counts(r, client) then after == times + [r.at] && after[..|after| - 1] == times else after == times
  {
    assert (trace + [r])[..|trace + [r]| - 1] == trace;
    assert Timeline(trace, client) + [] == Timeline(trace, client);
  }

  class AuthRateLimiter {
    const cfg: Config
    var buckets: map<string, Bucket>
    ghost var trace: seq<Request>

    ghost predicate Valid()
      reads this
    {
      buckets == Buckets(cfg, trace)
    }

    constructor (cfg: Config)
      ensures Valid() && this.cfg == cfg && trace == []
    {
      this.cfg := cfg;
      buckets := map[];
      trace := [];
    }

    method EvictExpired(now: int)
      modifies this`buckets
      ensures buckets == Evict(cfg, old(buckets), now)
    {
      var pending := buckets.Keys;
      while pending != {}
        invariant pending <= buckets.Keys <= old(buckets).Keys
        invariant forall k :: k in buckets ==> buckets[k] == old(buckets)[k]
        invariant forall k :: k in old(buckets) && k !in pending ==>
          (k in buckets <==> now - old(buckets)[k].windowStart < cfg.windowMs * 2)
        decreases |pending|
      {
        var key :| key in pending;
        if now - buckets[key].windowStart >= cfg.windowMs * 2 {
          buckets := buckets - {key};
        }
        pending := pending - {key};
      }
    }

    /** One request; the answer is the one `Answer` gives it in the trace seen so far. */
    method Handle(path: string, client: string, now: int) returns (d: Decision)
      requires Valid()
      modifies this
      ensures Valid() && trace == old(trace) + [Request(IsSensitive(path), client, now)]
      ensures d == Answer(cfg, trace, |trace| - 1)
    {
      var r := Request(IsSensitive(path), client, now);
      trace := trace + [r];
      assert trace[..|trace| - 1] == old(trace);
      OneMore(cfg, old(trace), r, client);
      assert Answer(cfg, trace, |trace| - 1) == Step(cfg, buckets, r).1;
      if !r.sensitive {
        return Admit;
      }
      EvictExpired(r.at);
      if r.client !in buckets || r.at - buckets[r.client].windowStart >= cfg.windowMs {
        buckets := buckets[r.client := Bucket(1, r.at)];
        return Admit;
      }
      var bucket := buckets[r.client];
      if bucket.count < cfg.max {
        buckets := buckets[r.client := bucket.(count := bucket.count + 1)];
        return Admit;
      }
      assert buckets == buckets[r.client := bucket];
      return Reject(RetryAfter(cfg, bucket.windowStart, r.at));
    }

    /** After a sensitive request the map counts no client that has been quiet for two windows, and,
        under a clock that does not step back, every client seen within one. */
    method Size() returns (n: nat)
      requires Valid() && cfg.Valid()
      ensures n == |buckets|
      ensures EndsSensitive(trace) ==> n <= |ClientsWithin(trace, 2 * cfg.windowMs)|
      ensures EndsSensitive(trace) && Ordered(trace) ==> |ClientsWithin(trace, cfg.windowMs)| <= n
    {
      if EndsSensitive(trace) {
        HeldClientsAreRecent(cfg, trace);
        if Ordered(trace) {
          RecentClientsAreHeld(cfg, trace);
        }
      }
      n := |buckets|;
    }
  }

  // ----- Eviction and other clients are invisible

  /** The clock never shows a time more than `drift` before one it has shown already. */
  ghost predicate StepBackAtMost(trace: seq<Request>, drift: int) {
    forall i, j :: 0 <= i <= j < |trace| ==> trace[i].at - trace[j].at <= drift
  }

  ghost predicate Ordered(trace: seq<Request>) { StepBackAtMost(trace, 0) }

  ghost predicate NoneAfter(trace: seq<Request>, limit: int) {
    forall i :: 0 <= i < |trace| ==> trace[i].at <= limit
  }

  /** What eviction may have dropped: only a bucket whose window is over by `now`. */
  ghost predicate Kept(cfg: Config, kept: Option<Bucket>, reference: Option<Bucket>, now: int) {
    kept == reference
    || (kept.None? && reference.Some? && now - reference.value.windowStart >= cfg.windowMs)
  }

  lemma StepKeeps(cfg: Config, buckets: map<string, Bucket>, r: Request, client: string,
                  reference: Option<Bucket>, now: int)
    requires cfg.Valid() && r.at <= now + cfg.windowMs
    requires Kept(cfg, Lookup(buckets, client), reference, r.at)
    requires Kept(cfg, Lookup(buckets, client), reference, now)
    ensures Kept(cfg, Lookup(Step(cfg, buckets, r).0, client),
                 if Counts(r, client) then Some(ClientStep(cfg, reference, r.at).0) else reference, now)
  {
  }

  /** A bucket is missing only where a request two windows after its start has been seen, so that its
      window is over at any time up to one window before that. */
  lemma {:induction false} AlwaysFaithful(cfg: Config, trace: seq<Request>, client: string, now: int)
    requires cfg.Valid() && StepBackAtMost(trace, cfg.windowMs) && NoneAfter(trace, now + cfg.windowMs)
    ensures Kept(cfg, Lookup(Buckets(cfg, trace), client), ClientBucket(cfg, Timeline(trace, client)), now)
  {
    if trace != [] {
      var before, r := trace[..|trace| - 1], trace[|trace| - 1];
      AlwaysFaithful(cfg, before, client, r.at);
      AlwaysFaithful(cfg, before, client, now);
      StepKeeps(cfg, Buckets(cfg, before), r, client, ClientBucket(cfg, Timeline(before, client)), now);
      var times := Timeline(before, client);
      assert times + [] == times && (times + [r.at])[..|times|] == times;
    }
  }

  /** What a limiter that never evicts, and has only ever seen this client's own sensitive requests,
      answers to request number `i`. */
  function Reference(cfg: Config, trace: seq<Request>, i: nat): Decision
    requires i < |trace|
  {
    if trace[i].sensitive then ClientDecision(cfg, Timeline(trace[..i], trace[i].client) + [trace[i].at]) else Admit
  }

  lemma ReferenceFromBucket(cfg: Config, trace: seq<Request>, i: nat)
    requires i < |trace| && trace[i].sensitive
    ensures Reference(cfg, trace, i) ==
      ClientStep(cfg, ClientBucket(cfg, Timeline(trace[..i], trace[i].client)), trace[i].at).1
  {
    var times := Timeline(trace[..i], trace[i].client);
    assert (times + [trace[i].at])[..|times|] == times;
  }

  /** While the clock steps back by one window at most, the shared, evicting limiter answers every
      request as the reference does. */
  lemma EvictionIsInvisible(cfg: Config, trace: seq<Request>, i: nat)
    requires cfg.Valid() && StepBackAtMost(trace, cfg.windowMs) && i < |trace|
    ensures Answer(cfg, trace, i) == Reference(cfg, trace, i)
  {
    if trace[i].sensitive {
      ReferenceFromBucket(cfg, trace, i);
      AlwaysFaithful(cfg, trace[..i], trace[i].client, trace[i].at);
    }
  }

  /** Each answer follows from the client's own timeline alone. */
  lemma AnswerFromBucket(cfg: Config, trace: seq<Request>, i: nat)
    requires cfg.Valid() && StepBackAtMost(trace, cfg.windowMs) && i < |trace| && trace[i].sensitive
    ensures Answer(cfg, trace, i) ==
      ClientStep(cfg, ClientBucket(cfg, Timeline(trace[..i], trace[i].client)), trace[i].at).1
  {
    EvictionIsInvisible(cfg, trace, i);
    ReferenceFromBucket(cfg, trace, i);
  }

  /** `n` sensitive requests of one client at one moment. */
  ghost predicate IsBurst(trace: seq<Request>, client: string, at: int, n: nat) {
    |trace| == n && forall i :: 0 <= i < n ==> trace[i] == Request(true, client, at)
  }

  lemma {:induction false} SpentBucket(cfg: Config, client: string, at: int, n: nat) returns (trace: seq<Request>)
    requires cfg.Valid() && 1 <= n <= cfg.Budget()
    ensures IsBurst(trace, client, at, n)
    ensures Buckets(cfg, trace) == map[client := Bucket(n, at)]
    ensures ClientBucket(cfg, Timeline(trace, client)) == Some(Bucket(n, at))
  {
    var r := Request(true, client, at);
    if n == 1 {
      trace := [r];
      assert [r][..0] == [] && [at][..0] == [];
    } else {
      var before := SpentBucket(cfg, client, at, n - 1);
      trace := before + [r];
      OneMore(cfg, before, r, client);
      assert Evict(cfg, map[client := Bucket(n - 1, at)], at) == map[client := Bucket(n - 1, at)];
    }
  }

  lemma SweepsSpentBucket(cfg: Config, a: string, b: string, high: int)
    requires cfg.Valid() && a != b
    ensures Step(cfg, map[a := Bucket(cfg.Budget(), high - 2 * cfg.windowMs)], Request(true, b, high)).0
         == map[b := Bucket(1, high)]
  {
    assert Evict(cfg, map[a := Bucket(cfg.Budget(), high - 2 * cfg.windowMs)], high) == map[];
  }

  /** A request of another client two windows after `a` spent its budget, and one of `a` at `low`. */
  lemma EvictedClientReturns(cfg: Config, spent: seq<Request>, a: string, b: string, high: int, low: int)
    requires cfg.Valid() && a != b && high - low > cfg.windowMs
    requires var bucket := Bucket(cfg.Budget(), high - 2 * cfg.windowMs);
      Buckets(cfg, spent) == map[a := bucket] && ClientBucket(cfg, Timeline(spent, a)) == Some(bucket)
    ensures var trace := spent + [Request(true, b, high)] + [Request(true, a, low)];
      Answer(cfg, trace, |spent| + 1) == Admit && Reference(cfg, trace, |spent| + 1).Reject?
  {
    var both := spent + [Request(true, b, high)];
    var trace := both + [Request(true, a, low)];
    OneMore(cfg, spent, Request(true, b, high), a);
    SweepsSpentBucket(cfg, a, b, high);
    assert trace[..|spent| + 1] == both;
    ReferenceFromBucket(cfg, trace, |spent| + 1);
  }

  lemma StepBackOf(spent: seq<Request>, x: Request, y: Request)
    requires y.at <= x.at && forall i :: 0 <= i < |spent| ==> spent[i].at <= x.at
    requires forall i, j :: 0 <= i <= j < |spent| ==> spent[i].at == spent[j].at
    ensures StepBackAtMost(spent + [x] + [y], x.at - y.at)
  {
  }

  /** A longer step back shows.  `a` spends its budget two windows before `high`, a request of `b` at
      `high` has the spent bucket evicted, and `a` is let in at `low` although its window is not over. */
  lemma LongStepBackShows(cfg: Config, a: string, b: string, high: int, low: int) returns (trace: seq<Request>)
    requires cfg.Valid() && a != b && high - low > cfg.windowMs
    ensures var n := |trace| - 2;
      n > 0 && IsBurst(trace[..n], a, high - 2 * cfg.windowMs, n)
      && trace[n] == Request(true, b, high) && trace[n + 1] == Request(true, a, low)
    ensures StepBackAtMost(trace, high - low)
    ensures Answer(cfg, trace, |trace| - 1) == Admit && Reference(cfg, trace, |trace| - 1).Reject?
  {
    var spent := SpentBucket(cfg, a, high - 2 * cfg.windowMs, cfg.Budget());
    trace := spent + [Request(true, b, high)] + [Request(true, a, low)];
    assert trace[..|trace| - 2] == spent;
    EvictedClientReturns(cfg, spent, a, b, high, low);
    StepBackOf(spent, Request(true, b, high), Request(true, a, low));
  }

  ghost predicate AlwaysInvisible(cfg: Config, drift: int) {
    forall trace, i :: 0 <= i < |trace| && StepBackAtMost(trace, drift) ==>
      Answer(cfg, trace, i) == Reference(cfg, trace, i)
  }

  /** Eviction and other clients are invisible on all traces of a clock exactly if that clock never
      steps back by more than one window. */
  lemma EvictionIsInvisibleIffStepsAreShort(cfg: Config, drift: int)
    requires cfg.Valid()
    ensures AlwaysInvisible(cfg, drift) <==> drift <= cfg.windowMs
  {
    if drift <= cfg.windowMs {
      forall trace, i | 0 <= i < |trace| && StepBackAtMost(trace, drift)
        ensures Answer(cfg, trace, i) == Reference(cfg, trace, i)
      {
        EvictionIsInvisible(cfg, trace, i);
      }
    } else {
      var trace := LongStepBackShows(cfg, "a", "b", drift, 0);
      assert Answer(cfg, trace, |trace| - 1) != Reference(cfg, trace, |trace| - 1);
    }
  }

  // ----- How large the map grows

  predicate Opened(r: Request, client: string, bucket: Bucket) { Counts(r, client) && r.at == bucket.windowStart }

  /** Every bucket still held was opened by a sensitive request of its client less than two windows ago. */
  lemma {:induction false} HeldBucketsAreRecent(cfg: Config, trace: seq<Request>, client: string)
    requires cfg.Valid() && client in Buckets(cfg, trace)
    ensures exists i :: 0 <= i < |trace| && Opened(trace[i], client, Buckets(cfg, trace)[client])
    ensures trace != [] &&
      (var last := trace[|trace| - 1];
       last.sensitive ==> last.at - Buckets(cfg, trace)[client].windowStart < cfg.windowMs * 2)
  {
    var before, r := trace[..|trace| - 1], trace[|trace| - 1];
    var bucket := Buckets(cfg, trace)[client];
    if Opened(r, client, bucket) {
      assert Opened(trace[|trace| - 1], client, bucket);
    } else {
      assert client in Buckets(cfg, before) && Buckets(cfg, before)[client].windowStart == bucket.windowStart;
      HeldBucketsAreRecent(cfg, before, client);
      var i :| 0 <= i < |before| && Opened(before[i], client, Buckets(cfg, before)[client]);
      assert Opened(trace[i], client, bucket);
    }
  }

  ghost predicate EndsSensitive(trace: seq<Request>) { trace != [] && trace[|trace| - 1].sensitive }

  ghost predicate SeenWithin(trace: seq<Request>, i: int, span: int) {
    0 <= i < |trace| && trace[i].sensitive && trace[|trace| - 1].at - trace[i].at < span
  }

  /** The clients with a sensitive request less than `span` before the last request. */
  ghost function ClientsWithin(trace: seq<Request>, span: int): set<string> {
    set i | 0 <= i < |trace| && SeenWithin(trace, i, span) :: trace[i].client
  }

  lemma SubsetIsNoLarger<T>(a: set<T>, b: set<T>)
    requires a <= b
    ensures |a| <= |b|
  {
    assert b == a + (b - a);
  }

  lemma HeldClientsAreRecent(cfg: Config, trace: seq<Request>)
    requires cfg.Valid() && EndsSensitive(trace)
    ensures Buckets(cfg, trace).Keys <= ClientsWithin(trace, 2 * cfg.windowMs)
    ensures |Buckets(cfg, trace)| <= |ClientsWithin(trace, 2 * cfg.windowMs)|
  {
    forall client | client in Buckets(cfg, trace)
      ensures client in ClientsWithin(trace, 2 * cfg.windowMs)
    {
      HeldBucketsAreRecent(cfg, trace, client);
      var i :| 0 <= i < |trace| && Opened(trace[i], client, Buckets(cfg, trace)[client]);
      assert SeenWithin(trace, i, 2 * cfg.windowMs);
    }
    SubsetIsNoLarger(Buckets(cfg, trace).Keys, ClientsWithin(trace, 2 * cfg.windowMs));
  }

  lemma {:induction false} RecentClientIsHeld(cfg: Config, trace: seq<Request>, i: nat)
    requires cfg.Valid() && Ordered(trace) && SeenWithin(trace, i, cfg.windowMs)
    ensures trace[i].client in Buckets(cfg, trace)
    ensures Buckets(cfg, trace)[trace[i].client].windowStart > trace[i].at - cfg.windowMs
  {
    var n := |trace| - 1;
    if i < n {
      RecentClientIsHeld(cfg, trace[..n], i);
    }
  }

  lemma RecentClientsAreHeld(cfg: Config, trace: seq<Request>)
    requires cfg.Valid() && Ordered(trace)
    ensures ClientsWithin(trace, cfg.windowMs) <= Buckets(cfg, trace).Keys
    ensures |ClientsWithin(trace, cfg.windowMs)| <= |Buckets(cfg, trace)|
  {
    forall client | client in ClientsWithin(trace, cfg.windowMs)
      ensures client in Buckets(cfg, trace)
    {
      var i :| 0 <= i < |trace| && SeenWithin(trace, i, cfg.windowMs) && trace[i].client == client;
      RecentClientIsHeld(cfg, trace, i);
    }
    SubsetIsNoLarger(ClientsWithin(trace, cfg.windowMs), Buckets(cfg, trace).Keys);
  }

  // ----- How much one client can get through

  /** Requests of one client's timeline that were admitted at or after `from` and before `until`. */
  function Admitted(cfg: Config, times: seq<int>, from: int, until: int): nat {
    if times == [] then 0
    else
      var t := times[|times| - 1];
      Admitted(cfg, times[..|times| - 1], from, until) +
      if from <= t < until && ClientDecision(cfg, times) == Admit then 1 else 0
  }

  ghost predicate Sorted(times: seq<int>) {
    forall i, j :: 0 <= i <= j < |times| ==> times[i] <= times[j]
  }

  /** The most requests any interval of length `span` lets through. */
  function AdmissionBound(cfg: Config, span: int): int
    requires cfg.Valid()
  {
    cfg.Budget() * (CeilDiv(span, cfg.windowMs) + 1) - 1
  }

  /** Whole windows between `from` and `start`, charged in full. */
  function FullWindows(cfg: Config, from: int, start: int): int
    requires cfg.Valid()
  {
    cfg.Budget() * ((start - from) / cfg.windowMs)
  }

  lemma WindowsAreApart(cfg: Config, from: int, start: int, next: int)
    requires cfg.Valid() && start + cfg.windowMs <= next
    ensures FullWindows(cfg, from, start) + cfg.Budget() <= FullWindows(cfg, from, next)
  {
    var w, m := cfg.windowMs, cfg.Budget();
    DivNext(start - from, w);
    DivMonotone(start - from + w, next - from, w);
    var p, q := (start - from) / w, (next - from) / w;
    MulMonotone(m, p + 1, q);
    assert m * (p + 1) == m * p + m;
  }

  lemma LastWindowFits(cfg: Config, span: int, from: int, start: int)
    requires cfg.Valid() && from <= start < from + span
    ensures 0 <= FullWindows(cfg, from, start)
    ensures FullWindows(cfg, from, start) + 2 * cfg.Budget() - 1 <= AdmissionBound(cfg, span)
  {
    var w, m := cfg.windowMs, cfg.Budget();
    DivNext(span - 1, w);
    DivMonotone(0, start - from, w);
    DivMonotone(start - from, span - 1, w);
    var p, q := (start - from) / w, (span - 1) / w;
    MulMonotone(m, 0, p);
    MulMonotone(m, p, q);
    assert m * (q + 2) == m * q + 2 * m;
  }

  /** Admissions so far, by where the current window lies relative to the interval. */
  ghost predicate Charged(cfg: Config, bucket: Bucket, n: nat, from: int, span: int)
    requires cfg.Valid()
  {
    var (start, m) := (bucket.windowStart, cfg.Budget());
    && 1 <= bucket.count <= m
    && (start <= from - cfg.windowMs ==> n == 0)
    && (from - cfg.windowMs < start < from ==> n <= bucket.count - 1)
    && (from <= start < from + span ==> n <= m - 1 + FullWindows(cfg, from, start) + bucket.count)
    && n <= AdmissionBound(cfg, span)
  }

  lemma {:induction false} AdmissionsAreCharged(cfg: Config, times: seq<int>, from: int, span: int)
    requires cfg.Valid() && 0 < span && Sorted(times) && times != []
    ensures ClientBucket(cfg, times).Some? && ClientBucket(cfg, times).value.windowStart <= times[|times| - 1]
    ensures Charged(cfg, ClientBucket(cfg, times).value, Admitted(cfg, times, from, from + span), from, span)
  {
    var before, t := times[..|times| - 1], times[|times| - 1];
    var bucket := ClientBucket(cfg, times).value;
    LastWindowFits(cfg, span, from, from);
    if before != [] {
      AdmissionsAreCharged(cfg, before, from, span);
      var prior := ClientBucket(cfg, before).value;
      if bucket.windowStart != prior.windowStart && from <= prior.windowStart {
        WindowsAreApart(cfg, from, prior.windowStart, bucket.windowStart);
      }
    }
    if from <= bucket.windowStart < from + span {
      LastWindowFits(cfg, span, from, bucket.windowStart);
    }
  }

  /** No interval of `span` milliseconds lets more than budget * (ceil(span / window) + 1) - 1 of a
      client's requests through, whatever the client does. */
  lemma AdmissionsAreBounded(cfg: Config, times: seq<int>, from: int, span: int)
    requires cfg.Valid() && 0 < span && Sorted(times)
    ensures Admitted(cfg, times, from, from + span) <= AdmissionBound(cfg, span)
    ensures Admitted(cfg, times, from, from + cfg.windowMs) <= 2 * cfg.Budget() - 1
  {
    var w := cfg.windowMs;
    assert CeilDiv(w, w) == 1;
    if times == [] {
      LastWindowFits(cfg, span, from, from);
      assert FullWindows(cfg, from, from) == 0;
    } else {
      AdmissionsAreCharged(cfg, times, from, span);
      AdmissionsAreCharged(cfg, times, from, w);
    }
  }

  /** The same count, read off the shared limiter's answers to a whole trace. */
  function AdmittedInTrace(cfg: Config, trace: seq<Request>, client: string, from: int, until: int): nat {
    if trace == [] then 0
    else
      var r := trace[|trace| - 1];
      AdmittedInTrace(cfg, trace[..|trace| - 1], client, from, until) +
      if Counts(r, client) && from <= r.at < until && Answer(cfg, trace, |trace| - 1) == Admit then 1 else 0
  }

  lemma {:induction false} TimelineSorted(trace: seq<Request>, client: string)
    requires Ordered(trace)
    ensures var times := Timeline(trace, client);
      Sorted(times) && (times != [] ==> times[|times| - 1] <= trace[|trace| - 1].at)
  {
    if trace != [] {
      TimelineSorted(trace[..|trace| - 1], client);
    }
  }

  lemma {:induction false} CountsAgree(cfg: Config, trace: seq<Request>, client: string, from: int, until: int)
    requires cfg.Valid() && Ordered(trace)
    ensures AdmittedInTrace(cfg, trace, client, from, until) == Admitted(cfg, Timeline(trace, client), from, until)
  {
    if trace != [] {
      var n := |trace| - 1;
      CountsAgree(cfg, trace[..n], client, from, until);
      var times := Timeline(trace, client);
      if Counts(trace[n], client) {
        EvictionIsInvisible(cfg, trace, n);
        assert times[..|times| - 1] == Timeline(trace[..n], client);
      } else {
        assert times == Timeline(trace[..n], client);
      }
    }
  }

  /** The bound, for one client of the shared limiter over any interval of any trace. */
  lemma ClientThroughput(cfg: Config, trace: seq<Request>, client: string, from: int, span: int)
    requires cfg.Valid() && Ordered(trace) && 0 < span
    ensures AdmittedInTrace(cfg, trace, client, from, from + span) <= AdmissionBound(cfg, span)
    ensures AdmittedInTrace(cfg, trace, client, from, from + cfg.windowMs) <= 2 * cfg.Budget() - 1
  {
    TimelineSorted(trace, client);
    AdmissionsAreBounded(cfg, Timeline(trace, client), from, span);
    CountsAgree(cfg, trace, client, from, from + span);
    CountsAgree(cfg, trace, client, from, from + cfg.windowMs);
  }

  /** While a window has budget left, every further request in it is admitted and counted. */
  lemma {:induction false} BurstIsAdmitted(cfg: Config, times: seq<int>, t: int, n: nat, from: int, until: int)
    requires ClientBucket(cfg, times).Some? && from <= t < until
    requires var b := ClientBucket(cfg, times).value;
      t - b.windowStart < cfg.windowMs && (n > 0 ==> b.count + n <= cfg.max)
    ensures ClientBucket(cfg, times + Repeat(t, n)) ==
      Some(Bucket(ClientBucket(cfg, times).value.count + n, ClientBucket(cfg, times).value.windowStart))
    ensures Admitted(cfg, times + Repeat(t, n), from, until) == Admitted(cfg, times, from, until) + n
  {
    if n == 0 {
      assert times + Repeat(t, 0) == times;
    } else {
      BurstIsAdmitted(cfg, times, t, n - 1, from, until);
      var all := times + Repeat(t, n);
      assert all[..|all| - 1] == times + Repeat(t, n - 1);
    }
  }

  lemma OpensWindow(cfg: Config, times: seq<int>, t: int, from: int, until: int)
    requires ClientBucket(cfg, times).None? || t - ClientBucket(cfg, times).value.windowStart >= cfg.windowMs
    ensures ClientBucket(cfg, times + [t]) == Some(Bucket(1, t))
    ensures Admitted(cfg, times + [t], from, until) ==
      Admitted(cfg, times, from, until) + if from <= t < until then 1 else 0
  {
    assert (times + [t])[..|times|] == times;
  }

  /** When the `k`-th window after the first opens, on a timeline that wastes no time. */
  function OpensAt(cfg: Config, k: nat): int { if k == 0 then 1 else OpensAt(cfg, k - 1) + cfg.windowMs }

  /** The greediest timeline: all but one of a window's budget at its very end, then the whole budget
      of each of `k` more windows at their start. */
  function Greedy(cfg: Config, k: nat): seq<int> {
    if k == 0 then [1] + Repeat(cfg.windowMs, cfg.Budget() - 1)
    else Greedy(cfg, k - 1) + [OpensAt(cfg, k)] + Repeat(OpensAt(cfg, k), cfg.Budget() - 1)
  }

  lemma {:induction false} GreedyIsSorted(cfg: Config, k: nat)
    requires cfg.Valid()
    ensures Sorted(Greedy(cfg, k))
    ensures forall i :: 0 <= i < |Greedy(cfg, k)| ==> Greedy(cfg, k)[i] < OpensAt(cfg, k) + cfg.windowMs
  {
    if k > 0 {
      GreedyIsSorted(cfg, k - 1);
    }
  }

  lemma SpendsNextWindow(cfg: Config, times: seq<int>, t: int, from: int, until: int)
    requires cfg.Valid() && from <= t < until
    requires ClientBucket(cfg, times).Some? && t - ClientBucket(cfg, times).value.windowStart >= cfg.windowMs
    ensures var all := times + [t] + Repeat(t, cfg.Budget() - 1);
      ClientBucket(cfg, all) == Some(Bucket(cfg.Budget(), t))
      && Admitted(cfg, all, from, until) == Admitted(cfg, times, from, until) + cfg.Budget()
  {
    OpensWindow(cfg, times, t, from, until);
    BurstIsAdmitted(cfg, times + [t], t, cfg.Budget() - 1, from, until);
  }

  lemma SpendsFirstWindow(cfg: Config, until: int)
    requires 2 <= cfg.windowMs < until
    ensures ClientBucket(cfg, Greedy(cfg, 0)) == Some(Bucket(cfg.Budget(), 1))
    ensures Admitted(cfg, Greedy(cfg, 0), cfg.windowMs, until) == cfg.Budget() - 1
  {
    OpensWindow(cfg, [], 1, cfg.windowMs, until);
    assert [] + [1] == [1];
    BurstIsAdmitted(cfg, [1], cfg.windowMs, cfg.Budget() - 1, cfg.windowMs, until);
  }

  lemma {:induction false} OpeningTimes(cfg: Config, k: nat)
    requires cfg.Valid()
    ensures OpensAt(cfg, k) == k * cfg.windowMs + 1 && (k > 0 ==> cfg.windowMs < OpensAt(cfg, k))
  {
    if k > 0 {
      OpeningTimes(cfg, k - 1);
      assert k * cfg.windowMs == (k - 1) * cfg.windowMs + cfg.windowMs;
    }
  }

  lemma {:induction false} GreedyAdmits(cfg: Config, k: nat, until: int)
    requires 2 <= cfg.windowMs < until && OpensAt(cfg, k) < until
    ensures ClientBucket(cfg, Greedy(cfg, k)) == Some(Bucket(cfg.Budget(), OpensAt(cfg, k)))
    ensures Admitted(cfg, Greedy(cfg, k), cfg.windowMs, until) == cfg.Budget() * (k + 1) - 1
  {
    if k == 0 {
      SpendsFirstWindow(cfg, until);
    } else {
      GreedyAdmits(cfg, k - 1, until);
      OpeningTimes(cfg, k);
      SpendsNextWindow(cfg, Greedy(cfg, k - 1), OpensAt(cfg, k), cfg.windowMs, until);
      Distribute(cfg.Budget(), k);
    }
  }

  lemma Distribute(m: int, k: int)
    ensures m * (k + 1) == m * k + m
  {
  }

  /** The bound is exact for every interval length but those one millisecond over a whole number of
      windows: some timeline gets precisely so many requests through. */
  lemma BoundIsAttained(cfg: Config, span: int) returns (times: seq<int>)
    requires 2 <= cfg.windowMs && 0 < span && span % cfg.windowMs != 1
    ensures Sorted(times)
    ensures Admitted(cfg, times, cfg.windowMs, cfg.windowMs + span) == AdmissionBound(cfg, span)
  {
    var w := cfg.windowMs;
    var k := CeilDiv(span, w);
    DivNext(span - 1, w);
    DivisionBounds(span - 1, w);
    DivMonotone(0, span - 1, w);
    assert k == (span - 1) / w + 1 && k * w == (span - 1) / w * w + w;
    if (span - 1) / w * w == span - 1 {
      Remainder(span, w, (span - 1) / w);
    }
    times := Greedy(cfg, k);
    OpeningTimes(cfg, k);
    GreedyIsSorted(cfg, k);
    GreedyAdmits(cfg, k, w + span);
  }

  // ----- What a refusal means to the client

  lemma {:induction false} TimelineConcat(a: seq<Request>, b: seq<Request>, client: string)
    ensures Timeline(a + b, client) == Timeline(a, client) + Timeline(b, client)
  {
    if b == [] {
      assert a + b == a;
    } else {
      assert (a + b)[..|a + b| - 1] == a + b[..|b| - 1];
      TimelineConcat(a, b[..|b| - 1], client);
    }
  }

  lemma {:induction false} SameBucketSameFuture(cfg: Config, a: seq<int>, b: seq<int>, rest: seq<int>)
    requires ClientBucket(cfg, a) == ClientBucket(cfg, b)
    ensures ClientBucket(cfg, a + rest) == ClientBucket(cfg, b + rest)
  {
    if rest == [] {
      assert a + rest == a && b + rest == b;
    } else {
      SameBucketSameFuture(cfg, a, b, rest[..|rest| - 1]);
      assert (a + rest)[..|a + rest| - 1] == a + rest[..|rest| - 1];
      assert (b + rest)[..|b + rest| - 1] == b + rest[..|rest| - 1];
    }
  }

  lemma RefusalKeepsBuckets(cfg: Config, trace: seq<Request>, i: nat, client: string)
    requires cfg.Valid() && StepBackAtMost(trace, cfg.windowMs) && i < |trace| && Answer(cfg, trace, i).Reject?
    ensures ClientBucket(cfg, Timeline(trace[..i + 1], client)) == ClientBucket(cfg, Timeline(trace[..i], client))
  {
    AnswerFromBucket(cfg, trace, i);
    assert trace[..i + 1][..i] == trace[..i];
    var times := Timeline(trace[..i], client);
    assert times + [] == times && (times + [trace[i].at])[..|times|] == times;
  }

  function Without(trace: seq<Request>, i: nat): seq<Request>
    requires i < |trace|
  {
    trace[..i] + trace[i + 1..]
  }

  lemma WithoutRefusal(cfg: Config, trace: seq<Request>, i: nat, j: nat, client: string)
    requires cfg.Valid() && StepBackAtMost(trace, cfg.windowMs) && i < j < |trace| && Answer(cfg, trace, i).Reject?
    ensures ClientBucket(cfg, Timeline(Without(trace, i)[..j - 1], client)) ==
      ClientBucket(cfg, Timeline(trace[..j], client))
  {
    var head, tail := trace[..i], trace[i + 1..j];
    RefusalKeepsBuckets(cfg, trace, i, client);
    TimelineConcat(head, tail, client);
    TimelineConcat(trace[..i + 1], tail, client);
    SameBucketSameFuture(cfg, Timeline(trace[..i + 1], client), Timeline(head, client), Timeline(tail, client));
    assert trace[..j] == trace[..i + 1] + tail;
    assert Without(trace, i)[..j - 1] == head + tail;
  }

  /** A refused request costs nothing: without it, every other request is answered just the same. */
  lemma RefusalsLeaveNoTrace(cfg: Config, trace: seq<Request>, i: nat, j: nat)
    requires cfg.Valid() && StepBackAtMost(trace, cfg.windowMs) && i < |trace| && j < |trace| && i != j
    requires Answer(cfg, trace, i).Reject?
    ensures Answer(cfg, Without(trace, i), if j < i then j else j - 1) == Answer(cfg, trace, j)
  {
    if j < i {
      assert Without(trace, i)[..j] == trace[..j];
    } else if trace[j].sensitive {
      AnswerFromBucket(cfg, trace, j);
      AnswerFromBucket(cfg, Without(trace, i), j - 1);
      WithoutRefusal(cfg, trace, i, j, trace[j].client);
    }
  }

  ghost predicate Silent(trace: seq<Request>, client: string) {
    forall i :: 0 <= i < |trace| ==> !Counts(trace[i], client)
  }

  lemma {:induction false} SilentTimeline(trace: seq<Request>, client: string)
    requires Silent(trace, client)
    ensures Timeline(trace, client) == []
  {
    if trace != [] {
      SilentTimeline(trace[..|trace| - 1], client);
    }
  }

  lemma CeilIsLeast(n: int)
    ensures 1000 * (CeilDiv(n, 1000) - 1) < n <= 1000 * CeilDiv(n, 1000)
  {
  }

  /** How a spent bucket answers the same client later on. */
  lemma RetryOfBucket(cfg: Config, bucket: Bucket, refusedAt: int, againAt: int)
    requires cfg.Valid() && ClientStep(cfg, Some(bucket), refusedAt).1.Reject?
    ensures var wait := ClientStep(cfg, Some(bucket), refusedAt).1.retryAfterSeconds;
      1 <= wait
      && (againAt >= refusedAt + 1000 * wait ==> ClientStep(cfg, Some(bucket), againAt).1 == Admit)
      && (againAt <= refusedAt + 1000 * (wait - 1) ==> ClientStep(cfg, Some(bucket), againAt).1.Reject?)
  {
    CeilIsLeast(bucket.windowStart + cfg.windowMs - refusedAt);
  }

  lemma SilenceKeepsBucket(cfg: Config, trace: seq<Request>, i: nat, j: nat, client: string)
    requires i < j <= |trace| && Silent(trace[i + 1..j], client)
    ensures Timeline(trace[..j], client) == Timeline(trace[..i + 1], client)
  {
    assert trace[..j] == trace[..i + 1] + trace[i + 1..j];
    TimelineConcat(trace[..i + 1], trace[i + 1..j], client);
    SilentTimeline(trace[i + 1..j], client);
  }

  /** The Retry-After value is exact.  A refused client that makes no sensitive request meanwhile is
      admitted once that many whole seconds have passed, and would be refused again at any time up to
      one whole second less. */
  lemma RetryAfterIsExact(cfg: Config, trace: seq<Request>, i: nat, j: nat)
    requires cfg.Valid() && StepBackAtMost(trace, cfg.windowMs) && i < j < |trace| && Answer(cfg, trace, i).Reject?
    requires Counts(trace[j], trace[i].client) && Silent(trace[i + 1..j], trace[i].client)
    ensures var wait := Answer(cfg, trace, i).retryAfterSeconds;
      1 <= wait
      && (trace[j].at >= trace[i].at + 1000 * wait ==> Answer(cfg, trace, j) == Admit)
      && (trace[j].at <= trace[i].at + 1000 * (wait - 1) ==> Answer(cfg, trace, j).Reject?)
  {
    var c := trace[i].client;
    AnswerFromBucket(cfg, trace, i);
    AnswerFromBucket(cfg, trace, j);
    RefusalKeepsBuckets(cfg, trace, i, c);
    SilenceKeepsBucket(cfg, trace, i, j, c);
    RetryOfBucket(cfg, ClientBucket(cfg, Timeline(trace[..i], c)).value, trace[i].at, trace[j].at);
  }

  // ----- What a client is given

  lemma {:induction false} WindowOpenedAtARequest(cfg: Config, times: seq<int>)
    requires times != []
    ensures ClientBucket(cfg, times).Some? && ClientBucket(cfg, times).value.windowStart in times
  {
    var before := times[..|times| - 1];
    if before != [] {
      WindowOpenedAtARequest(cfg, before);
      assert forall t :: t in before ==> t in times;
    }
  }

  /** After a quiet window, requests within one window of the first are admitted until the budget is
      spent, and refused from then on. */
  lemma {:induction false} BudgetIsSpent(cfg: Config, before: seq<int>, burst: seq<int>)
    requires cfg.Valid() && burst != []
    requires forall t :: t in before ==> burst[0] - t >= cfg.windowMs
    requires forall t :: t in burst ==> t - burst[0] < cfg.windowMs
    ensures ClientBucket(cfg, before + burst) ==
      Some(Bucket(if |burst| < cfg.Budget() then |burst| else cfg.Budget(), burst[0]))
    ensures ClientDecision(cfg, before + burst) == Admit <==> |burst| <= cfg.Budget()
  {
    var (n, first) := (|burst| - 1, burst[0]);
    if n == 0 {
      OpensAfterQuiet(cfg, before, first);
      assert burst == [first];
    } else {
      assert burst[..n][0] == first && forall t :: t in burst[..n] ==> t in burst;
      BudgetIsSpent(cfg, before, burst[..n]);
      NextOf(cfg, before + burst[..n], burst[n]);
      assert before + burst == before + burst[..n] + [burst[n]] && burst[n] in burst;
    }
  }

  lemma NextOf(cfg: Config, times: seq<int>, t: int)
    ensures ClientBucket(cfg, times + [t]) == Some(ClientStep(cfg, ClientBucket(cfg, times), t).0)
    ensures ClientDecision(cfg, times + [t]) == ClientStep(cfg, ClientBucket(cfg, times), t).1
  {
    assert (times + [t])[..|times|] == times;
  }

  lemma OpensAfterQuiet(cfg: Config, before: seq<int>, t: int)
    requires forall b :: b in before ==> t - b >= cfg.windowMs
    ensures ClientBucket(cfg, before + [t]) == Some(Bucket(1, t)) && ClientDecision(cfg, before + [t]) == Admit
  {
    NextOf(cfg, before, t);
    if before != [] {
      WindowOpenedAtARequest(cfg, before);
    }
  }

  ghost predicate CountedAt(trace: seq<Request>, j: int, client: string) {
    0 <= j < |trace| && Counts(trace[j], client)
  }

  lemma {:induction false} TimelineCounts(trace: seq<Request>, client: string, k: nat)
    requires k <= |trace|
    ensures |Timeline(trace[k..], client)| == |set j | k <= j < |trace| && CountedAt(trace, j, client)|
    decreases |trace|
  {
    if k == |trace| {
      assert trace[k..] == [] && (set j | k <= j < |trace| && CountedAt(trace, j, client)) == {};
    } else {
      var n := |trace| - 1;
      TimelineCounts(trace[..n], client, k);
      assert trace[k..][..n - k] == trace[..n][k..] && trace[k..][n - k] == trace[n];
      CountedNext(trace, client, k);
    }
  }

  lemma CountedNext(trace: seq<Request>, client: string, k: nat)
    requires k < |trace|
    ensures var n := |trace| - 1;
      |set j | k <= j < |trace| && CountedAt(trace, j, client)| ==
      |set j | k <= j < n && CountedAt(trace[..n], j, client)| + if Counts(trace[n], client) then 1 else 0
  {
    var n := |trace| - 1;
    var counted := set j | k <= j < n && CountedAt(trace[..n], j, client);
    assert (set j | k <= j < |trace| && CountedAt(trace, j, client))
        == counted + if Counts(trace[n], client) then {n} else {};
  }

  lemma {:induction false} TimelineTimes(trace: seq<Request>, client: string, t: int)
    requires t in Timeline(trace, client)
    ensures exists j :: CountedAt(trace, j, client) && trace[j].at == t
  {
    var n := |trace| - 1;
    if t in Timeline(trace[..n], client) {
      TimelineTimes(trace[..n], client, t);
      var j :| CountedAt(trace[..n], j, client) && trace[..n][j].at == t;
      assert CountedAt(trace, j, client);
    } else {
      assert CountedAt(trace, n, client);
    }
  }

  lemma SplitTimeline(cfg: Config, trace: seq<Request>, k: nat, i: nat)
    requires k <= i < |trace| && trace[k].sensitive && Counts(trace[i], trace[k].client)
    ensures var (c, burst) := (trace[k].client, Timeline(trace[k..i + 1], trace[k].client));
      burst != [] && burst[0] == trace[k].at
      && Reference(cfg, trace, i) == ClientDecision(cfg, Timeline(trace[..k], c) + burst)
  {
    var c := trace[k].client;
    TimelineStartsWith(trace[k..i + 1], c);
    TimelineConcat(trace[..k], trace[k..i + 1], c);
    assert trace[..i + 1] == trace[..k] + trace[k..i + 1];
    OneMore(cfg, trace[..i], trace[i], c);
    assert trace[..i + 1] == trace[..i] + [trace[i]];
  }

  lemma TimelineStartsWith(trace: seq<Request>, client: string)
    requires trace != [] && Counts(trace[0], client)
    ensures var times := Timeline(trace, client); times != [] && times[0] == trace[0].at
  {
    assert trace == [trace[0]] + trace[1..];
    TimelineConcat([trace[0]], trace[1..], client);
    assert [trace[0]][..0] == [] && Timeline([trace[0]], client) == [] + [trace[0].at];
  }

  /** Over every trace of a clock that steps back by a window at most: from a request of a client that
      was quiet for a window, requests are admitted exactly while they are no more than the budget. */
  lemma QuietClientGetsItsBudget(cfg: Config, trace: seq<Request>, k: nat, i: nat)
    requires cfg.Valid() && StepBackAtMost(trace, cfg.windowMs) && k <= i < |trace|
    requires trace[k].sensitive && Counts(trace[i], trace[k].client)
    requires forall j :: j < k && CountedAt(trace, j, trace[k].client) ==> trace[k].at - trace[j].at >= cfg.windowMs
    requires forall j :: k <= j <= i && CountedAt(trace, j, trace[k].client) ==>
      trace[j].at - trace[k].at < cfg.windowMs
    ensures Answer(cfg, trace, i) == Admit <==>
      |set j | k <= j <= i && CountedAt(trace, j, trace[k].client)| <= cfg.Budget()
  {
    var (c, head, part) := (trace[k].client, trace[..k], trace[..i + 1]);
    EvictionIsInvisible(cfg, trace, i);
    SplitTimeline(cfg, trace, k, i);
    assert part[k..] == trace[k..i + 1];
    forall t | t in Timeline(head, c)
      ensures trace[k].at - t >= cfg.windowMs
    {
      TimelineTimes(head, c, t);
      var j :| CountedAt(head, j, c) && head[j].at == t;
      assert CountedAt(trace, j, c);
    }
    forall t | t in Timeline(part[k..], c)
      ensures t - trace[k].at < cfg.windowMs
    {
      TimelineTimes(part[k..], c, t);
      var j :| CountedAt(part[k..], j, c) && part[k..][j].at == t;
      assert CountedAt(trace, k + j, c);
    }
    BudgetIsSpent(cfg, Timeline(head, c), Timeline(part[k..], c));
    TimelineCounts(part, c, k);
    assert (set j | k <= j < |part| && CountedAt(part, j, c)) == (set j | k <= j <= i && CountedAt(trace, j, c));
  }

  /** A request as it comes in. */
  datatype Incoming = Incoming(path: string, client: string, at: int)

  function Seen(incoming: seq<Incoming>): (trace: seq<Request>)
    ensures |trace| == |incoming|
  {
    seq(|incoming|, i requires 0 <= i < |incoming| =>
      Request(IsSensitive(incoming[i].path), incoming[i].client, incoming[i].at))
  }

  /** The path of a credential endpoint or of something below it, under the mount or not, with any query. */
  ghost predicate IsCredentialRequest(path: string) {
    exists mount, endpoint, rest :: IsCredentialRequestAs(path, mount, endpoint, rest)
  }

  ghost predicate IsCredentialRequestAs(path: string, mount: string, endpoint: string, rest: string) {
    && IsMount(mount) && CarriesCredential(endpoint) && path == mount + endpoint + rest
    && (rest == "" || rest[0] == '/' || rest[0] == '?')
  }

  lemma SensitiveIffCredentialRequest(path: string)
    ensures IsSensitive(path) <==> IsCredentialRequest(path)
  {
    if IsSensitive(path) {
      var mount, endpoint, rest := OnlyCredentialPathsAreSensitive(path);
      assert IsCredentialRequestAs(path, mount, endpoint, rest);
    }
    if mount, endpoint, rest :| IsCredentialRequestAs(path, mount, endpoint, rest) {
      CredentialPathsAreSensitive(mount, endpoint, rest);
    }
  }

  /** Request `j` guesses a credential for `client`. */
  ghost predicate Guesses(incoming: seq<Incoming>, j: int, client: string) {
    0 <= j < |incoming| && incoming[j].client == client && IsCredentialRequest(incoming[j].path)
  }

  /** What the limiter is for: of the credential requests of one client within a window, spread over
      whatever endpoints, exactly the budget is admitted and the rest refused.  Other requests pass. */
  lemma GuessingIsCapped(cfg: Config, incoming: seq<Incoming>, k: nat, i: nat)
    requires cfg.Valid() && StepBackAtMost(Seen(incoming), cfg.windowMs) && k <= i < |incoming|
    requires Guesses(incoming, k, incoming[k].client) && incoming[i].client == incoming[k].client
    requires forall j :: j < k && Guesses(incoming, j, incoming[k].client) ==>
      incoming[k].at - incoming[j].at >= cfg.windowMs
    requires forall j :: k <= j <= i && Guesses(incoming, j, incoming[k].client) ==>
      incoming[j].at - incoming[k].at < cfg.windowMs
    ensures Answer(cfg, Seen(incoming), i) == Admit <==>
      (Guesses(incoming, i, incoming[k].client) ==>
        |set j | k <= j <= i && Guesses(incoming, j, incoming[k].client)| <= cfg.Budget())
  {
    var (c, trace) := (incoming[k].client, Seen(incoming));
    forall j
      ensures CountedAt(trace, j, c) <==> Guesses(incoming, j, c)
    {
      if 0 <= j < |incoming| {
        SensitiveIffCredentialRequest(incoming[j].path);
      }
    }
    assert CountedAt(trace, k, c);
    if Guesses(incoming, i, c) {
      assert CountedAt(trace, i, c);
      QuietClientGetsItsBudget(cfg, trace, k, i);
      assert (set j | k <= j <= i && CountedAt(trace, j, c)) == (set j | k <= j <= i && Guesses(incoming, j, c));
    } else {
      assert !CountedAt(trace, i, c);
    }
  }
}
