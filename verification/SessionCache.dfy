/**
 * The admin gateway's session-validation cache.
 *
 * `SessionCache` is the module-level Map with the two halves of a check: `Begin` runs up to the
 * request to the auth server, `Finish` from its reply on.  Between them other checks run, so the
 * properties are stated over every interleaving of the two steps (`Run`).
 */
module SessionCaching {
  import opened OrderedMaps
  import opened Basics

  const TTL_MS: int := 10000
  const MAX_ENTRIES: int := 500
  const KEPT_ON_OVERFLOW: int := 450

  datatype Entry = Entry(at: int, ok: bool)
  type Cache = OrderedMap<string, Entry>

  /** What came back from the auth server: nothing, or a status with a body that may not be JSON. */
  datatype Reply = TransportFailure | Replied(status: int, jsonBody: bool, hasUser: bool)

  /** The authoritative answer a reply carries, if it carries one. */
  function Verdict(reply: Reply): Option<bool> {
    match reply
    case TransportFailure => None
    case Replied(status, jsonBody, hasUser) =>
      if !(200 <= status <= 299) then (if status < 500 && status != 429 then Some(false) else None)
      else if jsonBody then Some(hasUser)
      else None
  }

  predicate Fresh(e: Entry, now: int) { now - e.at < TTL_MS }

  function FreshKeys(cache: Cache, now: int): set<string> {
    set k | k in cache.values && Fresh(cache.values[k], now)
  }

  /** What a sweep in insertion order has left after visiting `n` keys. */
  ghost function Unswept(cache: Cache, now: int, n: nat): set<string>
    requires n <= cache.Size()
  {
    set k | k in cache.values && (k !in cache.keys[..n] || Fresh(cache.values[k], now))
  }

  lemma SweepNext(cache: Cache, now: int, n: nat)
    requires cache.Valid() && n < cache.Size()
    ensures Unswept(cache, now, n + 1) ==
      if Fresh(cache.values[cache.keys[n]], now) then Unswept(cache, now, n)
      else Unswept(cache, now, n) - {cache.keys[n]}
  {
    assert cache.keys[..n + 1] == cache.keys[..n] + [cache.keys[n]];
  }

  function Evict(cache: Cache, now: int): Cache {
    if cache.Size() < MAX_ENTRIES then cache
    else
      var pruned := cache.Keep(FreshKeys(cache, now));
      if pruned.Size() < MAX_ENTRIES then pruned
      else pruned.DropOldest(pruned.Size() - KEPT_ON_OVERFLOW)
  }

  datatype Lookup = Hit(ok: bool) | Miss

  function Find(cache: Cache, token: string, now: int): Lookup {
    if token in cache.values && Fresh(cache.values[token], now) then Hit(cache.values[token].ok) else Miss
  }

  function Store(cache: Cache, token: string, at: int, reply: Reply): Cache {
    match Verdict(reply)
    case Some(ok) => cache.Set(token, Entry(at, ok))
    case None => cache
  }

  /** What the check itself returns: no answer counts as no. */
  function Outcome(reply: Reply): bool { Verdict(reply) == Some(true) }

  class SessionCache {
    var cache: Cache

    ghost predicate Valid()
      reads this
    {
      cache.Valid()
    }

    constructor ()
      ensures Valid() && cache == Empty()
    {
      cache := Empty();
    }

    method PruneExpired(now: int)
      requires Valid()
      modifies this
      ensures Valid() && cache == old(cache).Keep(FreshKeys(old(cache), now))
    {
      var start := cache;
      start.KeepAll();
      assert Unswept(start, now, 0) == start.values.Keys;
      for i := 0 to |start.keys|
        invariant Valid() && cache == start.Keep(Unswept(start, now, i))
      {
        var k := start.keys[i];
        SweepNext(start, now, i);
        if !Fresh(start.values[k], now) {
          cache.KeepValid(cache.values.Keys - {k});
          start.DeleteKept(Unswept(start, now, i), k);
          cache := cache.Delete(k);
        }
      }
      assert Unswept(start, now, |start.keys|) == FreshKeys(start, now);
    }

    method DropFirst(overflow: nat)
      requires Valid() && overflow <= cache.Size()
      modifies this
      ensures Valid() && cache == old(cache).DropOldest(overflow)
    {
      var start := cache;
      var i := 0;
      while i < |start.keys|
        invariant 0 <= i <= overflow
        invariant Valid() && cache == start.DropOldest(i)
      {
        if i >= overflow {
          break;
        }
        start.DropNext(i);
        start.DropOldestValid(i + 1);
        cache := cache.Delete(start.keys[i]);
        i := i + 1;
      }
    }

    method Begin(token: string, now: int) returns (r: Lookup)
      requires Valid()
      modifies this
      ensures Valid() && r == Find(old(cache), token, now)
      ensures cache == if r.Hit? then old(cache) else Evict(old(cache), now)
    {
      if token in cache.values && now - cache.values[token].at < TTL_MS {
        return Hit(cache.values[token].ok);
      }
      if cache.Size() >= MAX_ENTRIES {
        PruneExpired(now);
        if cache.Size() >= MAX_ENTRIES {
          DropFirst(cache.Size() - KEPT_ON_OVERFLOW);
        }
      }
      return Miss;
    }

    method Finish(token: string, at: int, reply: Reply) returns (ok: bool)
      requires Valid()
      modifies this
      ensures Valid() && ok == Outcome(reply)
      ensures cache == Store(old(cache), token, at, reply)
    {
      match reply
      case TransportFailure =>
        return false;
      case Replied(status, jsonBody, hasUser) =>
        if !(200 <= status <= 299) {
          if status < 500 && status != 429 {
            cache := cache.Set(token, Entry(at, false));
          }
          return false;
        }
        if !jsonBody {
          return false;
        }
        cache := cache.Set(token, Entry(at, hasUser));
        return hasUser;
    }
  }

  // ----- Every interleaving of checks

  /** `Asked` marks the start of a probe and lends it its position as an id; `ok` is what a check returned. */
  datatype Event =
    | Asked(token: string, at: int)
    | Answered(id: nat, token: string, at: int, reply: Reply, ok: bool)
    | FromCache(token: string, at: int, ok: bool)

  datatype Probe = Probe(token: string, at: int)
  datatype System = System(cache: Cache, inFlight: map<nat, Probe>, clock: int, log: seq<Event>)
  datatype Step = Begin(token: string, now: int) | Finish(id: nat, reply: Reply)

  function Initial(): System { System(Empty(), map[], 0, []) }

  /** One atomic step.  A step that cannot happen, a clock stepping back or a reply to no probe,
      changes nothing, so every sequence of steps is a run. */
  function Apply(s: System, step: Step): System {
    match step
    case Begin(token, now) =>
      if now < s.clock then s
      else (
        match Find(s.cache, token, now)
        case Hit(ok) => s.(clock := now, log := s.log + [FromCache(token, now, ok)])
        case Miss =>
          System(Evict(s.cache, now), s.inFlight[|s.log| := Probe(token, now)], now, s.log + [Asked(token, now)])
      )
    case Finish(id, reply) =>
      if id !in s.inFlight then s
      else
        var p := s.inFlight[id];
        s.(cache := Store(s.cache, p.token, p.at, reply), inFlight := s.inFlight - {id},
           log := s.log + [Answered(id, p.token, p.at, reply, Outcome(reply))])
  }

  function Run(steps: seq<Step>): System {
    if steps == [] then Initial() else Apply(Run(steps[..|steps| - 1]), steps[|steps| - 1])
  }

  /** The cache without bounds: every authoritative answer so far, the last one per token. */
  function Remembered(log: seq<Event>): map<string, Entry> {
    if log == [] then map[]
    else
      var past, e := Remembered(log[..|log| - 1]), log[|log| - 1];
      if e.Answered? && Verdict(e.reply).Some? then past[e.token := Entry(e.at, Verdict(e.reply).value)] else past
  }

  /** Entry number `j` of the log is the auth server's answer `ok` for `token`, to a probe sent at `at`. */
  ghost predicate AnsweredSo(log: seq<Event>, j: int, token: string, at: int, ok: bool) {
    && 0 <= j < |log| && log[j].Answered? && log[j].token == token && log[j].at == at
    && Verdict(log[j].reply) == Some(ok)
    && log[j].id < j && log[log[j].id] == Asked(token, at)
  }

  /** What the cache answered at position `i` was the auth server's own answer, already received, to
      a probe for the same token sent less than the TTL before. */
  ghost predicate Justified(log: seq<Event>, i: nat)
    requires i < |log| && log[i].FromCache?
  {
    exists j, at :: JustifiedBy(log, i, j, at)
  }

  ghost predicate JustifiedBy(log: seq<Event>, i: nat, j: int, at: int)
    requires i < |log| && log[i].FromCache?
  {
    j < i && AnsweredSo(log, j, log[i].token, at, log[i].ok) && at <= log[i].at < at + TTL_MS
  }

  ghost predicate LogSound(s: System) {
    && (forall id :: id in s.inFlight ==> id < |s.log| && s.log[id] == Asked(s.inFlight[id].token, s.inFlight[id].at))
    && (forall j :: 0 <= j < |s.log| && s.log[j].Answered? ==>
          s.log[j].id < j && s.log[s.log[j].id] == Asked(s.log[j].token, s.log[j].at)
          && s.log[j].ok == Outcome(s.log[j].reply))
    && (forall j :: 0 <= j < |s.log| && s.log[j].Asked? ==> s.log[j].at <= s.clock)
  }

  ghost predicate CacheSound(s: System) {
    && s.cache.Valid()
    && (forall k :: k in s.cache.values ==> k in Remembered(s.log) && s.cache.values[k] == Remembered(s.log)[k])
  }

  ghost predicate AnswersSound(s: System) {
    forall i :: 0 <= i < |s.log| && s.log[i].FromCache? ==> Justified(s.log, i)
  }

  lemma EvictOnlyRemoves(cache: Cache, now: int)
    requires cache.Valid()
    ensures Evict(cache, now).Valid() && Evict(cache, now).SubmapOf(cache)
    ensures Evict(cache, now).Size() < MAX_ENTRIES
  {
    if cache.Size() >= MAX_ENTRIES {
      cache.KeepValid(FreshKeys(cache, now));
      var pruned := cache.Keep(FreshKeys(cache, now));
      if pruned.Size() >= MAX_ENTRIES {
        pruned.DropOldestValid(pruned.Size() - KEPT_ON_OVERFLOW);
      }
    }
  }

  /** Eviction drops nothing below 500 entries.  From there on it drops the stale entries and, if 500
      fresh ones remain, all but the 450 most recently inserted of them. */
  lemma EvictionKeepsTheNewest(cache: Cache, now: int)
    requires cache.Valid()
    ensures |cache.keys| < 500 ==> Evict(cache, now) == cache
    ensures |cache.keys| >= 500 ==>
      var (kept, live) := (Evict(cache, now), Filter(cache.keys, FreshKeys(cache, now)));
      kept.keys == (if |live| < 500 then live else live[|live| - 450..])
      && forall k :: k in kept.keys ==>
           k in kept.values && kept.values[k] == cache.values[k] && now - kept.values[k].at < 10000
  {
    cache.KeepValid(FreshKeys(cache, now));
    EvictOnlyRemoves(cache, now);
    var pruned := cache.Keep(FreshKeys(cache, now));
    if pruned.Size() >= MAX_ENTRIES {
      pruned.DropOldestValid(pruned.Size() - KEPT_ON_OVERFLOW);
    }
  }

  lemma {:induction false} RememberedWasAnswered(s: System, n: nat, token: string) returns (j: int)
    requires LogSound(s) && n <= |s.log| && token in Remembered(s.log[..n])
    ensures var e := Remembered(s.log[..n])[token]; 0 <= j < n && AnsweredSo(s.log, j, token, e.at, e.ok)
  {
    assert s.log[..n][..n - 1] == s.log[..n - 1];
    var e := s.log[n - 1];
    if e.Answered? && Verdict(e.reply).Some? && e.token == token {
      j := n - 1;
    } else {
      j := RememberedWasAnswered(s, n - 1, token);
    }
  }

  lemma StepKeepsCacheSound(s: System, step: Step)
    requires CacheSound(s)
    ensures CacheSound(Apply(s, step))
  {
    var next := Apply(s, step);
    if next.log != s.log {
      assert next.log[..|s.log|] == s.log;
    }
    if step.Begin? {
      EvictOnlyRemoves(s.cache, step.now);
    }
  }

  lemma StepKeepsLogSound(s: System, step: Step)
    requires LogSound(s)
    ensures LogSound(Apply(s, step))
  {
  }

  lemma JustifiedPersists(log: seq<Event>, e: Event, i: nat)
    requires i < |log| && log[i].FromCache? && Justified(log, i)
    ensures Justified(log + [e], i)
  {
    var j, at :| JustifiedBy(log, i, j, at);
    assert JustifiedBy(log + [e], i, j, at);
  }

  lemma HitIsJustified(s: System, token: string, now: int)
    requires LogSound(s) && CacheSound(s) && s.clock <= now && Find(s.cache, token, now).Hit?
    ensures Justified(s.log + [FromCache(token, now, Find(s.cache, token, now).ok)], |s.log|)
  {
    assert s.log[..|s.log|] == s.log;
    var j := RememberedWasAnswered(s, |s.log|, token);
    var log := s.log + [FromCache(token, now, Find(s.cache, token, now).ok)];
    assert JustifiedBy(log, |s.log|, j, s.cache.values[token].at);
  }

  lemma StepKeepsAnswersSound(s: System, step: Step)
    requires LogSound(s) && CacheSound(s) && AnswersSound(s)
    ensures AnswersSound(Apply(s, step))
  {
    var next := Apply(s, step);
    if next.log != s.log {
      var e := next.log[|s.log|];
      assert next.log == s.log + [e];
      forall i | 0 <= i < |next.log| && next.log[i].FromCache?
        ensures Justified(next.log, i)
      {
        if i < |s.log| {
          JustifiedPersists(s.log, e, i);
        } else {
          HitIsJustified(s, e.token, e.at);
        }
      }
    }
  }

  lemma {:induction false} EveryRunIsSound(steps: seq<Step>)
    ensures LogSound(Run(steps)) && CacheSound(Run(steps)) && AnswersSound(Run(steps))
  {
    if steps != [] {
      var before, step := steps[..|steps| - 1], steps[|steps| - 1];
      EveryRunIsSound(before);
      StepKeepsLogSound(Run(before), step);
      StepKeepsCacheSound(Run(before), step);
      StepKeepsAnswersSound(Run(before), step);
    }
  }

  /** A 2xx JSON reply that names a user. */
  predicate NamesUser(reply: Reply) {
    reply.Replied? && 200 <= reply.status <= 299 && reply.jsonBody && reply.hasUser
  }

  /** A 2xx JSON reply that names none, or any other answer but a server error and throttling. */
  predicate NamesNoUser(reply: Reply) {
    reply.Replied? &&
    if 200 <= reply.status <= 299 then reply.jsonBody && !reply.hasUser
    else reply.status < 500 && reply.status != 429
  }

  /** However checks interleave, a check that has to ask says yes exactly when the reply names a user. */
  lemma {:induction false} ProbeSaysYesExactly(steps: seq<Step>, i: nat)
    requires i < |Run(steps).log| && Run(steps).log[i].Answered?
    ensures var e := Run(steps).log[i]; e.ok <==> NamesUser(e.reply)
  {
    EveryRunIsSound(steps);
  }

  /** However checks interleave, a page is let through at position `i` of the log only on the auth
      server's yes for that very token, to a probe sent less than the TTL before the check began. */
  lemma AccessIsRecentlyApproved(steps: seq<Step>, i: nat)
    requires i < |Run(steps).log|
    requires var e := Run(steps).log[i]; !e.Asked? && e.ok
    ensures var log := Run(steps).log;
      exists j, at :: j <= i && AnsweredSo(log, j, log[i].token, at, true) && at <= log[i].at < at + 10000
        && NamesUser(log[j].reply)
  {
    EveryRunIsSound(steps);
    var log := Run(steps).log;
    if log[i].Answered? {
      assert AnsweredSo(log, i, log[i].token, log[i].at, true);
    } else {
      assert Justified(log, i);
      var j, at :| JustifiedBy(log, i, j, at);
      assert AnsweredSo(log, j, log[i].token, at, true);
    }
  }

  /** And a check is turned away out of the cache only on the server's own no: a reply that is neither
      a server error nor throttling, or one that names no user. */
  lemma CachedRefusalIsAuthoritative(steps: seq<Step>, i: nat)
    requires i < |Run(steps).log|
    requires var e := Run(steps).log[i]; e.FromCache? && !e.ok
    ensures var log := Run(steps).log;
      exists j, at :: j < i && AnsweredSo(log, j, log[i].token, at, false) && at <= log[i].at < at + 10000
        && NamesNoUser(log[j].reply)
  {
    EveryRunIsSound(steps);
    var log := Run(steps).log;
    assert Justified(log, i);
    var j, at :| JustifiedBy(log, i, j, at);
    assert AnsweredSo(log, j, log[i].token, at, false);
  }

  function FindRemembered(log: seq<Event>, token: string, now: int): Lookup {
    if token in Remembered(log) && Fresh(Remembered(log)[token], now) then Hit(Remembered(log)[token].ok) else Miss
  }

  /** Bounding the cache never changes an answer: it hits with what an unbounded one fed the same
      replies would say, or it misses and asks again. */
  lemma {:induction false} EvictionOnlyCausesReprobes(steps: seq<Step>, token: string, now: int)
    ensures Find(Run(steps).cache, token, now) in {Miss, FindRemembered(Run(steps).log, token, now)}
  {
    EveryRunIsSound(steps);
  }

  /** At no time in the run do more than `k` probes wait for their reply. */
  ghost predicate AtMostInFlight(steps: seq<Step>, k: nat) {
    forall n :: 0 <= n <= |steps| ==> |Run(steps[..n]).inFlight| <= k
  }

  lemma StoreAddsOne(cache: Cache, token: string, at: int, reply: Reply)
    ensures cache.Size() <= Store(cache, token, at, reply).Size() <= cache.Size() + 1
  {
  }

  lemma StepKeepsRoom(s: System, step: Step, k: nat)
    requires s.cache.Valid() && |Apply(s, step).inFlight| <= k
    requires s.cache.Size() + |s.inFlight| <= MAX_ENTRIES - 1 + k
    ensures Apply(s, step).cache.Size() + |Apply(s, step).inFlight| <= MAX_ENTRIES - 1 + k
  {
    if step.Begin? {
      EvictOnlyRemoves(s.cache, step.now);
    } else if step.id in s.inFlight {
      assert (s.inFlight - {step.id}).Keys == s.inFlight.Keys - {step.id};
      assert |s.inFlight - {step.id}| == |(s.inFlight - {step.id}).Keys| && |s.inFlight| == |s.inFlight.Keys|;
      StoreAddsOne(s.cache, s.inFlight[step.id].token, s.inFlight[step.id].at, step.reply);
    }
  }

  /** With at most `k` checks in flight the map stays below 500 + k entries; one at a time, it never
      exceeds its stated maximum. */
  lemma {:induction false} CacheIsBounded(steps: seq<Step>, k: nat)
    requires AtMostInFlight(steps, k)
    ensures Run(steps).cache.Size() + |Run(steps).inFlight| <= 499 + k
  {
    if steps != [] {
      var before := steps[..|steps| - 1];
      forall n | 0 <= n <= |before|
        ensures |Run(before[..n]).inFlight| <= k
      {
        assert before[..n] == steps[..n];
      }
      CacheIsBounded(before, k);
      EveryRunIsSound(before);
      assert steps[..|steps|] == steps;
      StepKeepsRoom(Run(before), steps[|steps| - 1], k);
    }
  }

  // ----- Whose answer is remembered

  lemma RunNext(steps: seq<Step>, step: Step)
    ensures Run(steps + [step]) == Apply(Run(steps), step)
  {
    assert (steps + [step])[..|steps|] == steps;
  }

  /** `e` is an authoritative answer for `token`. */
  ghost predicate Decides(e: Event, token: string) {
    e.Answered? && e.token == token && Verdict(e.reply).Some?
  }

  /** Entry number `k` answers the latest probe for `token` of all that were answered authoritatively. */
  ghost predicate IsNewest(log: seq<Event>, k: int, token: string) {
    && 0 <= k < |log| && Decides(log[k], token)
    && forall j :: 0 <= j < |log| && Decides(log[j], token) ==> log[j].id <= log[k].id
  }

  ghost predicate RemembersAnswer(log: seq<Event>, k: int, token: string) {
    IsNewest(log, k, token) && token in Remembered(log)
    && Remembered(log)[token] == Entry(log[k].at, Verdict(log[k].reply).value)
  }

  /** What is remembered for `token`, if anything, is the answer to the latest answered probe. */
  ghost predicate RemembersNewest(log: seq<Event>, token: string) {
    token in Remembered(log) ==> exists k :: RemembersAnswer(log, k, token)
  }

  ghost predicate OneInFlight(s: System, token: string) {
    forall i, j :: i in s.inFlight && j in s.inFlight && s.inFlight[i].token == token == s.inFlight[j].token ==> i == j
  }

  /** At no time before the last step of the run were two probes for `token` in flight. */
  ghost predicate OneAtATime(steps: seq<Step>, token: string) {
    forall n :: 0 <= n < |steps| ==> OneInFlight(Run(steps[..n]), token)
  }

  /** Every probe for `token` in flight began after all those that were answered authoritatively. */
  ghost predicate InFlightIsLater(s: System, token: string) {
    forall id, j ::
      id in s.inFlight && s.inFlight[id].token == token && 0 <= j < |s.log| && Decides(s.log[j], token) ==>
        s.log[j].id < id
  }

  lemma FinishRemembersNewest(s: System, id: nat, reply: Reply, token: string)
    requires InFlightIsLater(s, token) && RemembersNewest(s.log, token)
    ensures RemembersNewest(Apply(s, Finish(id, reply)).log, token)
  {
    var log := Apply(s, Finish(id, reply)).log;
    if id in s.inFlight {
      assert log[..|s.log|] == s.log;
      if Decides(log[|s.log|], token) {
        assert RemembersAnswer(log, |s.log|, token);
      } else if token in Remembered(s.log) {
        var k :| RemembersAnswer(s.log, k, token);
        assert RemembersAnswer(log, k, token);
      }
    }
  }

  lemma BeginRemembersNewest(s: System, step: Step, token: string)
    requires step.Begin? && RemembersNewest(s.log, token)
    ensures RemembersNewest(Apply(s, step).log, token)
  {
    var log := Apply(s, step).log;
    if log != s.log {
      assert log[..|s.log|] == s.log;
      if token in Remembered(s.log) {
        var k :| RemembersAnswer(s.log, k, token);
        assert RemembersAnswer(log, k, token);
      }
    }
  }

  lemma StepKeepsOrder(s: System, step: Step, token: string)
    requires LogSound(s) && InFlightIsLater(s, token) && OneInFlight(s, token)
    ensures InFlightIsLater(Apply(s, step), token)
  {
  }

  lemma {:induction false} OrderIsKept(steps: seq<Step>, token: string)
    requires OneAtATime(steps, token)
    ensures InFlightIsLater(Run(steps), token) && RemembersNewest(Run(steps).log, token)
  {
    if steps != [] {
      var before, step := steps[..|steps| - 1], steps[|steps| - 1];
      forall n | 0 <= n < |before|
        ensures OneInFlight(Run(before[..n]), token)
      {
        assert before[..n] == steps[..n];
      }
      OrderIsKept(before, token);
      EveryRunIsSound(before);
      StepKeepsOrder(Run(before), step, token);
      if step.Finish? {
        FinishRemembersNewest(Run(before), step.id, step.reply, token);
      } else {
        BeginRemembersNewest(Run(before), step, token);
      }
    }
  }

  /** While at most one probe per token is in flight, every answer out of the cache is the one to the
      latest probe for its token that has been answered authoritatively. */
  lemma {:induction false} NewestAnswerIsServed(steps: seq<Step>, token: string, i: nat)
    requires OneAtATime(steps, token)
    requires var log := Run(steps).log; i < |log| && log[i].FromCache? && log[i].token == token
    ensures var log := Run(steps).log;
      exists k :: IsNewest(log[..i], k, token) && Verdict(log[k].reply) == Some(log[i].ok)
  {
    var before, step := steps[..|steps| - 1], steps[|steps| - 1];
    var (log, past) := (Run(steps).log, Run(before).log);
    forall n | 0 <= n < |before|
      ensures OneInFlight(Run(before[..n]), token)
    {
      assert before[..n] == steps[..n];
    }
    if i < |past| {
      NewestAnswerIsServed(before, token, i);
      assert log[..i] == past[..i];
    } else {
      OrderIsKept(before, token);
      EveryRunIsSound(before);
      assert log[..i] == past;
      var k :| RemembersAnswer(past, k, token);
      assert IsNewest(log[..i], k, token) && Verdict(log[k].reply) == Some(log[i].ok);
    }
  }

  ghost predicate OnlyReplies(steps: seq<Step>) {
    forall n :: 0 <= n < |steps| ==> steps[n].Finish?
  }

  lemma ReplyKeepsOrder(s: System, step: Step, token: string)
    requires step.Finish? && LogSound(s)
    requires InFlightIsLater(s, token) && OneInFlight(s, token) && RemembersNewest(s.log, token)
    ensures var next := Apply(s, step);
      InFlightIsLater(next, token) && OneInFlight(next, token) && RemembersNewest(next.log, token)
  {
    StepKeepsOrder(s, step, token);
    FinishRemembersNewest(s, step.id, step.reply, token);
  }

  lemma {:induction false} RepliesKeepOrder(steps: seq<Step>, replies: seq<Step>, token: string)
    requires OneAtATime(steps, token) && OneInFlight(Run(steps), token) && OnlyReplies(replies)
    ensures var s := Run(steps + replies);
      InFlightIsLater(s, token) && OneInFlight(s, token) && RemembersNewest(s.log, token)
  {
    if replies == [] {
      OrderIsKept(steps, token);
      assert steps + replies == steps;
    } else {
      var n := |replies| - 1;
      RepliesKeepOrder(steps, replies[..n], token);
      EveryRunIsSound(steps + replies[..n]);
      assert steps + replies == (steps + replies[..n]) + [replies[n]];
      RunNext(steps + replies[..n], replies[n]);
      ReplyKeepsOrder(Run(steps + replies[..n]), replies[n], token);
    }
  }

  /** Of two probes in flight for one token, the older one, answered last, overwrites the newer one's no
      with its yes, which is then remembered, and served while it is fresh. */
  lemma LateAnswerOverwritesNewerOne(steps: seq<Step>, older: nat, newer: nat, now: int)
    requires older in Run(steps).inFlight && newer in Run(steps).inFlight && older < newer
    requires Run(steps).inFlight[older].token == Run(steps).inFlight[newer].token
    ensures var (yes, no) := (Replied(200, true, true), Replied(401, true, false));
      var (probe, replies) := (Run(steps).inFlight[older], [Finish(newer, no), Finish(older, yes)]);
      Run(steps + replies).log == Run(steps).log
        + [Answered(newer, probe.token, Run(steps).inFlight[newer].at, no, false)]
        + [Answered(older, probe.token, probe.at, yes, true)]
      && (Run(steps).clock <= now < probe.at + TTL_MS ==>
            Find(Run(steps + replies).cache, probe.token, now) == Hit(true))
  {
    var (yes, no) := (Replied(200, true, true), Replied(401, true, false));
    RunNext(steps, Finish(newer, no));
    RunNext(steps + [Finish(newer, no)], Finish(older, yes));
    assert steps + [Finish(newer, no), Finish(older, yes)] == steps + [Finish(newer, no)] + [Finish(older, yes)];
  }

  lemma OverlapForgetsNewest(steps: seq<Step>, older: nat, newer: nat, token: string) returns (replies: seq<Step>)
    requires OneAtATime(steps, token) && older < newer
    requires older in Run(steps).inFlight && Run(steps).inFlight[older].token == token
    requires newer in Run(steps).inFlight && Run(steps).inFlight[newer].token == token
    ensures OnlyReplies(replies) && !RemembersNewest(Run(steps + replies).log, token)
  {
    var (yes, no) := (Replied(200, true, true), Replied(401, true, false));
    replies := [Finish(newer, no), Finish(older, yes)];
    OrderIsKept(steps, token);
    LateAnswerOverwritesNewerOne(steps, older, newer, 0);
    var (past, log) := (Run(steps).log, Run(steps + replies).log);
    assert log[..|log| - 1] == past + [log[|past|]] && log[|past| + 1] == log[|log| - 1];
    assert Decides(log[|past|], token) && Verdict(log[|past|].reply) == Some(false);
    forall k
      ensures !RemembersAnswer(log, k, token)
    {
      assert 0 <= k < |past| ==> log[k] == past[k];
    }
  }

  /** The exact condition.  As long as probes for a token have not overlapped, however those in flight
      are answered the newest answer is remembered, if and only if at most one is in flight. */
  lemma NewestIsRememberedIffNoOverlap(steps: seq<Step>, token: string)
    requires OneAtATime(steps, token)
    ensures (forall replies :: OnlyReplies(replies) ==> RemembersNewest(Run(steps + replies).log, token))
      <==> OneInFlight(Run(steps), token)
  {
    if OneInFlight(Run(steps), token) {
      forall replies | OnlyReplies(replies)
        ensures RemembersNewest(Run(steps + replies).log, token)
      {
        RepliesKeepOrder(steps, replies, token);
      }
    } else {
      var s := Run(steps);
      var i, j :| i in s.inFlight && j in s.inFlight && s.inFlight[i].token == token == s.inFlight[j].token && i != j;
      var replies := OverlapForgetsNewest(steps, if i < j then i else j, if i < j then j else i, token);
    }
  }

  // ----- An answer is used

  /** The step neither evicts nor answers a probe for `token`. */
  ghost predicate Spares(s: System, step: Step, token: string) {
    match step
    case Begin(_, _) => |s.cache.keys| < 500
    case Finish(id, _) => id in s.inFlight ==> s.inFlight[id].token != token
  }

  ghost predicate AllSpare(steps: seq<Step>, more: seq<Step>, token: string) {
    forall n :: 0 <= n < |more| ==> Spares(Run(steps + more[..n]), more[n], token)
  }

  lemma SparedEntryStays(s: System, step: Step, token: string)
    requires s.cache.Valid() && Spares(s, step, token) && token in s.cache.values
    ensures var next := Apply(s, step).cache; token in next.values && next.values[token] == s.cache.values[token]
  {
    if step.Begin? {
      EvictionKeepsTheNewest(s.cache, step.now);
    }
  }

  lemma AllSpareBefore(steps: seq<Step>, more: seq<Step>, token: string)
    requires more != [] && AllSpare(steps, more, token)
    ensures var n := |more| - 1;
      AllSpare(steps, more[..n], token) && Spares(Run(steps + more[..n]), more[n], token)
  {
    var n := |more| - 1;
    forall i | 0 <= i < n
      ensures Spares(Run(steps + more[..n][..i]), more[..n][i], token)
    {
      assert more[..n][..i] == more[..i];
    }
  }

  lemma {:induction false} SparedEntryStaysOn(steps: seq<Step>, more: seq<Step>, token: string)
    requires token in Run(steps).cache.values && AllSpare(steps, more, token)
    ensures var cache := Run(steps + more).cache;
      token in cache.values && cache.values[token] == Run(steps).cache.values[token]
  {
    if more == [] {
      assert steps + more == steps;
    } else {
      var n := |more| - 1;
      AllSpareBefore(steps, more, token);
      SparedEntryStaysOn(steps, more[..n], token);
      EveryRunIsSound(steps + more[..n]);
      SparedEntryStays(Run(steps + more[..n]), more[n], token);
      RunLast(steps, more);
    }
  }

  lemma RunLast(steps: seq<Step>, more: seq<Step>)
    requires more != []
    ensures Run(steps + more) == Apply(Run(steps + more[..|more| - 1]), more[|more| - 1])
  {
    assert (steps + more)[..|steps + more| - 1] == steps + more[..|more| - 1];
  }

  /** An authoritative answer, yes or no, is remembered: whatever happens meanwhile but an eviction or
      another answer for the token, a check of it within ten seconds of the probe's start asks no one
      and returns that answer. */
  lemma {:induction false} AnswerIsServed(steps: seq<Step>, id: nat, reply: Reply, more: seq<Step>, now: int)
    requires id in Run(steps).inFlight && (NamesUser(reply) || NamesNoUser(reply))
    requires var (p, answered) := (Run(steps).inFlight[id], steps + [Finish(id, reply)]);
      AllSpare(answered, more, p.token) && Run(answered + more).clock <= now && now - p.at < 10000
    ensures var (p, before) := (Run(steps).inFlight[id], Run(steps + [Finish(id, reply)] + more));
      Run(steps + [Finish(id, reply)] + more + [Begin(p.token, now)])
        == before.(clock := now, log := before.log + [FromCache(p.token, now, NamesUser(reply))])
  {
    var token := Run(steps).inFlight[id].token;
    var answered := steps + [Finish(id, reply)];
    RunNext(steps, Finish(id, reply));
    SparedEntryStaysOn(answered, more, token);
    RunNext(answered + more, Begin(token, now));
  }
}
