# A verified model of SassyAuth's stateful and parsing core

This project models, in Dafny 4.11, the parts of SassyAuth whose correctness is more than
plumbing, and proves what they promise: the limiter in front of the credential endpoints, the admin
gateway's session cache, the shared password policy with its strength meter, the template renderer, the
image data URI rule, the Set-Cookie parser and the sign-in actions built on it, the database
provisioning and the environment-variable sync of the deploy pipeline, the apps service, and the telemetry
header parser. `dafny verify dfyconfig.toml` checks everything.

Code that changes things step by step is imperative here too: the limiter, the session cache, the
login actions, the provisioning run, the hosted service and the apps service are classes, and the
evaluator, the parsers and the env-var merge are methods with loops. Each is proved equal to a function
on values, and the lemmas say what that function guarantees for every input or every run.

| file | what it holds |
|---|---|
| `AuthRateLimit.dfy` | the limiter, and one client's timeline without eviction as its reference |
| `SessionCache.dfy`, `OrderedMap.dfy` | the session cache, its interleavings, and the insertion-ordered map |
| `PasswordPolicy.dfy` | the policy evaluator, the shortest acceptable password, overrides, the strength meter |
| `Template.dfy` | `{{token}}` substitution |
| `DataUri.dfy` | image data URIs and base64 (RFC 4648, section 4) |
| `Text.dfy`, `UriComponent.dfy` | the runtime's string operations; percent-encoding over UTF-8 (RFC 3986, section 2.1) |
| `SetCookie.dfy`, `SignIn.dfy` | the combined Set-Cookie header; the four ways to finish signing in |
| `Neon.dfy`, `EnvVars.dfy` | find-or-create provisioning with interruptions; merging environment variables |
| `AppsService.dfy`, `SearchEscape.dfy` | the apps service over every serial run; the escaping of its search box |
| `OtlpHeaders.dfy` | the telemetry header list |
| `Arithmetic.dfy`, `Basics.dfy` | quotients and products; optional values, octets, constant sequences |

## What turned out not to hold

The code is modelled as it is. Where a promise fails, there is a lemma with the failing case and a lemma
that says exactly when the promise holds.

- The search box escapes `%` and `_` but not the escape character. It is a literal search for exactly
  the texts without a backslash (`SearchIsLiteralIffNoBackslash`).
- The service's bounds on a password override allow one that rejects every password: its demands can add up to 258
  characters, and passwords end at 256 (`ValidOverrideCanRejectEverything`, `OverrideIsUsable`).
- The image size formula is exact for the payloads that carry at least their due padding; an unpadded
  one is refused at a size that fits. It never accepts too much (`FormulaIsExactIffPadded`, `FormulaIsSafe`).
- A direct call of the service that sets a webhook URL to the empty text keeps the secret, although clearing the
  URL drops it and rotation refuses an empty URL. That is the only way to half-configure a webhook
  (`HalfConfiguredIffUrlEmptied`), and the endpoint closes it: its URL check refuses the empty text, and the console
  sends null for it (`NoRunHalfConfigures`).
- A slow session probe that answers last overwrites a newer answer (`LateAnswerOverwritesNewerOne`). The newest
  answer wins exactly as long as probes for a token do not overlap (`NewestAnswerIsServed`,
  `NewestIsRememberedIffNoOverlap`). The TTL counts from the older probe, so the ten-second bound holds anyway.
- The special-character class leaves out the backslash: the one in its pattern escapes the bracket after it
  (`ClassesPartitionPrintableAscii`).
- "Platform app cannot be modified" covers update and delete. The two secret rotations do not look whose app it
  is, as the comment at apps.service.ts:448-449 has it, and change the platform's row
  (`PlatformAppIsUntouchedIffNeverRotated` says exactly when).
- Eviction is not always invisible. It is for exactly the clocks that never step back by more than one window
  (`EvictionIsInvisibleIffStepsAreShort`).
- A path or domain of a cookie is read in full exactly when it has no equals sign in it (`PathIsWholeIffNoEquals`,
  `DomainIsWholeIffNoEquals`).
- The two first-factor actions report every failure as an error, except that a 2xx reply with the JSON text `null` for
  a body makes them throw (`ThrowsIffBodyIsNull`). No session is opened then.

## Model

| member | source | states |
|---|---|---|
| AuthRateLimit.ClassificationIsStable | apps/auth-server/src/auth/auth-rate-limit.ts:47-56 | a query string never changes whether a path is sensitive, and neither does the mount prefix |
| AuthRateLimit.CredentialPathsAreSensitive | apps/auth-server/src/auth/auth-rate-limit.ts:26-56 | a path that begins with one of the ten endpoints, under the mount or not, is sensitive if and only if it ends there or goes on with a slash or a question mark |
| AuthRateLimit.OnlyCredentialPathsAreSensitive | apps/auth-server/src/auth/auth-rate-limit.ts:26-56 | every sensitive path is of that kind |
| AuthRateLimit.SessionReadsAreFree | apps/auth-server/src/auth/auth-rate-limit.ts:41-46 | reading the session and signing out are never sensitive |
| AuthRateLimit.AuthRateLimiter.EvictExpired | apps/auth-server/src/auth/auth-rate-limit.ts:95-101 | the sweep drops exactly the buckets two windows old, and changes no other |
| AuthRateLimit.AuthRateLimiter.Handle | apps/auth-server/src/auth/auth-rate-limit.ts:103-142 | one request through the middleware closure gets the answer its position in the trace calls for, and the map becomes the one that trace leads to |
| AuthRateLimit.AuthRateLimiter.Size | apps/auth-server/src/auth/auth-rate-limit.ts:92-144 | after a sensitive request the size is at most the number of clients with a sensitive request in the last two windows and, if the clock has not stepped back, at least the number of those with one in the last window |
| AuthRateLimit.EvictionIsInvisible | apps/auth-server/src/auth/auth-rate-limit.ts:88-142 | while the clock never steps back by more than one window, every answer of the shared, evicting limiter is that of a limiter that never evicts and saw only this client's sensitive requests |
| AuthRateLimit.LongStepBackShows | apps/auth-server/src/auth/auth-rate-limit.ts:95-122 | for every budget and window, and any step back longer than a window, a trace that lets a spent client in before its window is over |
| AuthRateLimit.EvictionIsInvisibleIffStepsAreShort | apps/auth-server/src/auth/auth-rate-limit.ts:88-142 | eviction and other clients are invisible on all traces whose clock steps back by at most d if and only if d is at most the window |
| AuthRateLimit.QuietClientGetsItsBudget | apps/auth-server/src/auth/auth-rate-limit.ts:113-141 | from the first request after a quiet window on, in any trace of any clients, a client is admitted exactly while its requests are no more than the budget |
| AuthRateLimit.GuessingIsCapped | apps/auth-server/src/auth/auth-rate-limit.ts:47-141 | the same for requests as they come in, by path: of the credential requests of one client within a window, spread over any endpoints, exactly the budget is admitted, and other requests pass |
| AuthRateLimit.HeldBucketsAreRecent | apps/auth-server/src/auth/auth-rate-limit.ts:92-101 | each bucket held after a sensitive request was opened by a request of its own client, less than two windows ago |
| AuthRateLimit.HeldClientsAreRecent | apps/auth-server/src/auth/auth-rate-limit.ts:92-101 | the map is no larger than the set of clients seen within two windows |
| AuthRateLimit.RecentClientsAreHeld | apps/auth-server/src/auth/auth-rate-limit.ts:92-122 | under a clock that does not step back, it is no smaller than the set of clients seen within one |
| AuthRateLimit.ClientThroughput | apps/auth-server/src/auth/auth-rate-limit.ts:113-128 | under a clock that does not step back, no half-open interval of length L lets more than budget * (ceil(L / window) + 1) - 1 requests of one client through, and one window length at most 2 * budget - 1 |
| AuthRateLimit.BoundIsAttained | apps/auth-server/src/auth/auth-rate-limit.ts:113-128 | for every budget, every window of two milliseconds or more and every interval length that is not one millisecond over a whole number of windows, some timeline gets exactly the bound through |
| AuthRateLimit.RefusalsLeaveNoTrace | apps/auth-server/src/auth/auth-rate-limit.ts:118-134 | while the clock steps back by a window at most, deleting a refused request from a trace leaves the answer to every other request as it was |
| AuthRateLimit.RetryAfterIsExact | apps/auth-server/src/auth/auth-rate-limit.ts:130-134 | under the same clock, a refused client that stays silent is admitted from Retry-After seconds on, and is refused at any time up to one second less |
| SessionCaching.SessionCache.PruneExpired | apps/admin/middleware.ts:72-75 | the first sweep keeps exactly the fresh entries, in insertion order |
| SessionCaching.SessionCache.DropFirst | apps/admin/middleware.ts:78-85 | the overflow loop deletes exactly the first keys in insertion order, as many as asked |
| SessionCaching.SessionCache.Begin | apps/admin/middleware.ts:62-86 | the half of a check before the probe: a fresh entry answers and nothing changes, otherwise the cache is evicted |
| SessionCaching.SessionCache.Finish | apps/admin/middleware.ts:95-125 | the half after the reply: only an authoritative answer is stored, stamped with the time the probe began, and everything else fails closed |
| SessionCaching.EvictionKeepsTheNewest | apps/admin/middleware.ts:68-86 | eviction drops nothing below 500 entries; from there on it leaves all fresh entries unless 500 remain, and then the 450 most recently inserted ones, unchanged |
| SessionCaching.ProbeSaysYesExactly | apps/admin/middleware.ts:95-125 | in every interleaving, a check that asks the auth server returns yes if and only if the reply is a 2xx JSON reply naming a user |
| SessionCaching.AnswerIsServed | apps/admin/middleware.ts:62-118 | after any authoritative reply, yes or no, a check of that token within ten seconds of the probe returns it without asking, whatever happened meanwhile but an eviction or another answer for the token |
| SessionCaching.AccessIsRecentlyApproved | apps/admin/middleware.ts:54-126 | in every interleaving, a page is let through only on a 2xx reply naming a user, to a probe for the same token begun less than ten seconds before |
| SessionCaching.CachedRefusalIsAuthoritative | apps/admin/middleware.ts:102-118 | a refusal out of the cache goes back to a 2xx JSON reply naming no user, or to any other reply but a server error or throttling, to a probe for that token less than ten seconds old |
| SessionCaching.EvictionOnlyCausesReprobes | apps/admin/middleware.ts:62-86 | at any time a lookup either misses or says what an unbounded cache fed the same replies would say |
| SessionCaching.CacheIsBounded | apps/admin/middleware.ts:72-86 | entries plus probes in flight never exceed 499 + k when at most k checks are in flight, so 500 entries one at a time |
| SessionCaching.LateAnswerOverwritesNewerOne | apps/admin/middleware.ts:95-118 | from any reachable state with two probes in flight for a token, the older one answered last overwrites the newer one's no, and its yes is served while it is fresh |
| SessionCaching.NewestAnswerIsServed | apps/admin/middleware.ts:54-126 | while probes for a token do not overlap, everything served for it from the cache is the answer to its latest answered probe |
| SessionCaching.NewestIsRememberedIffNoOverlap | apps/admin/middleware.ts:95-118 | from any state reached without overlap, the newest answer is remembered however the probes in flight are answered if and only if at most one of them is for the token |
| PasswordPolicies.ClassesPartitionPrintableAscii | packages/types/index.ts:83 | the four classes are disjoint and cover printable ASCII but for the blank and the backslash |
| PasswordPolicies.ClassAlphabets | packages/types/index.ts:83-122 | the characters of each class, written out |
| PasswordPolicies.EvaluatePasswordPolicy | packages/types/index.ts:93-122 | the evaluator with its conditional pushes returns the evaluation that the lemmas below speak of |
| PasswordPolicies.CountMatches | packages/types/index.ts:85-87 | counts the characters of a class |
| PasswordPolicies.EvaluateReportsEveryRule | packages/types/index.ts:93-122 | the report lists exactly the rules the policy switches on, each once and in the fixed order, with the outcome of the password |
| PasswordPolicies.AllMetMeansDemandsMet | packages/types/index.ts:100-120 | all rules are met if and only if the length suffices and each class meets its demand |
| PasswordPolicies.AllMetInPlainTerms | packages/types/index.ts:93-122 | all rules are met if and only if the password is long enough and holds, at so many places, the characters of the classes that the policy asks for |
| PasswordPolicies.LengthsThatMeetPolicy | packages/types/index.ts:93-122 | for every integer policy, a password of length n that meets it exists if and only if n is at least max(minLength, sum of the demands) |
| PasswordPolicies.OverrideIsUsable | apps/auth-server/src/apps/apps.service.ts:104-126 | an override the service accepts leaves an acceptable password if and only if its demands add up to 256 or less |
| PasswordPolicies.ValidOverrideCanRejectEverything | apps/auth-server/src/auth/password-policy.ts:78-86 | an override inside the service's bounds under which every password fails some rule or the maximum length |
| PasswordPolicies.MeterIsHonest | apps/admin/components/password-strength-meter.tsx:16-22 | a non-empty password lights one to five segments, five if and only if every rule is met, and appending characters never turns one off |
| PasswordPolicies.MeterShowsTheShare | apps/admin/components/password-strength-meter.tsx:16-21 | the number of lit segments is the nearest integer to five times the share of met rules, but at least one |
| Templates.TokenAtFindsTheToken | packages/types/index.ts:202-206 | taking the longest word finds the token wherever the expression can match |
| Templates.WordAlphabet | packages/types/index.ts:202-206 | what a token may be made of, character by character |
| Templates.ScanIsUnique | packages/types/index.ts:202-206 | the scan is the only decomposition into single characters and tokens that spells the template and passes over no place where a token starts |
| Templates.RenderFollowsAnyScan | packages/types/index.ts:202-206 | the output is that decomposition with each known token replaced by its value, whatever the value looks like |
| Templates.RenderStepByStep | packages/types/index.ts:194-206 | brace-free text is kept, a known token replaced, an unknown one left as it stands, and the rest rendered on its own |
| Templates.RenderWithOwnTokensIsIdentity | packages/types/index.ts:194-206 | binding keys to their own tokens, or binding nothing, changes no template |
| Templates.NestedBracesAreNotRescanned | packages/types/index.ts:194-206 | a value put between braces is not looked up again |
| DataUris.PayloadsHaveTheShape | packages/types/index.ts:137-141 | a payload is one or more base64 characters followed by at most two equals signs |
| DataUris.AcceptedIffDataUri | packages/types/index.ts:137-158 | any text is accepted if and only if it is the data URI of an allowed type with such a payload that passes the size rule |
| DataUris.EncodeShape | packages/types/index.ts:154-156 | length, padding and decodability of the base64 encoding of every non-empty byte string |
| DataUris.FormulaIsSafe | packages/types/index.ts:154-157 | a payload the formula passes never decodes to more than the limit |
| DataUris.FormulaDecides | packages/types/index.ts:154-157 | at any limit the formula passes the payloads that decode to less than it, and those that decode to exactly it and carry their due padding |
| DataUris.FormulaIsExactIffPadded | packages/types/index.ts:154-157 | the formula decides by the decoded size at every limit if and only if the payload carries at least its due padding |
| DataUris.FileIsAcceptedIffItFits | packages/types/index.ts:137-158 | the data URI of any non-empty file is accepted if and only if its type is allowed and the file is within the limit |
| DataUris.LogoIsAcceptedIffItFits | packages/types/index.ts:124-179 | the same for logos and favicons: the four types, 256000 bytes |
| UriComponent.DecodeUndoesEncode | packages/telemetry/src/headers.ts:9 | decoding a percent-encoded component gives back every Unicode string |
| UriComponent.UnreservedAlphabet | packages/telemetry/src/headers.ts:9 | the characters that are not escaped, written out |
| UriComponent.OutputsAreCanonical | apps/admin/app/login/actions.ts:80-92 | a text is an encoder's output if and only if it is spelled in unreserved characters and capital escapes of the others, and decodes |
| SetCookies.TokenAlphabet | apps/admin/app/login/actions.ts:69-72 | the characters of a cookie name in the splitting expression, written out |
| SetCookies.SplitIsLossless | apps/admin/app/login/actions.ts:69-72 | joining the cut pieces with commas gives the header back |
| SetCookies.SplitUndoesJoin | apps/admin/app/login/actions.ts:66-72 | clauses that start with a cookie name and contain no cut point come back from joining with a comma and a blank |
| SetCookies.ReadAttributes | apps/admin/app/login/actions.ts:94-129 | the attribute loop applies the attributes one after another |
| SetCookies.ParseSessionCookie | apps/admin/app/login/actions.ts:69-133 | the parser's loops compute the first clause of the wanted name, read in full |
| SetCookies.ReadsAsMeant | apps/admin/app/login/actions.ts:96-128 | each attribute of a clause sets the field it means, and only that; a text means its part before an equals sign |
| SetCookies.PathIsWholeIffNoEquals | apps/admin/app/login/actions.ts:95-111 | a path is read as it was written if and only if there is no equals sign in it |
| SetCookies.DomainIsWholeIffNoEquals | apps/admin/app/login/actions.ts:112-114 | the same for a domain |
| SetCookies.CaseDoesNotMatter | apps/admin/app/login/actions.ts:94-107 | attribute names and the value of SameSite are read in capitals and small letters alike |
| SetCookies.UnusableAttributesAreIgnored | apps/admin/app/login/actions.ts:94-129 | an unknown attribute, a number that is not finite, a text that is no date and an unknown SameSite value change nothing |
| SetCookies.UndecodableValueIsKept | apps/admin/app/login/actions.ts:87-92 | a value that cannot be decoded is taken as it stands |
| SetCookies.LastOfKindCounts | apps/admin/app/login/actions.ts:94-129 | of several attributes of one kind the last one counts |
| SetCookies.AbsentKindsAreUnset | apps/admin/app/login/actions.ts:94-129 | nothing is set that no attribute says |
| SetCookies.WrittenIsWellFormed | apps/admin/app/login/actions.ts:56-64 | no comma in a written clause, those of dates included, is a cut point |
| SetCookies.NoEqualsIsClean | apps/admin/app/login/actions.ts:60-63 | a trimmed text without semicolon and equals sign is clean: the comma of a date is no cut point |
| SetCookies.ParseOfJoined | apps/admin/app/login/actions.ts:69-133 | parsing a joined header finds the first clause of the wanted name |
| SetCookies.SessionCookieRoundTrip | apps/admin/app/login/actions.ts:69-133 | a session cookie written with any value and attributes of clean text (no semicolon, no comma before a name, no blank at the end), anywhere after clauses of other names, is read back as it was meant |
| SetCookies.ReserialisingIsIdentityIffEncoded | apps/admin/app/login/actions.ts:80-92 | decoding once and encoding again gives the wire text back if and only if its spelling is canonical |
| SignIn.LoginActions.ForwardSessionCookie | apps/admin/app/login/actions.ts:135-167 | the session is written, with its defaults, exactly when the reply carries a readable session cookie |
| SignIn.LoginActions.ForwardTwoFactorCookie | apps/admin/app/account/security/actions.ts:38-94 | the challenge cookie is passed on with its lifetime and options but its domain, if the reply carries it |
| SignIn.LoginActions.ApplyPerAppTrustCookie | apps/admin/app/login/actions.ts:517-542 | the trust cookie is passed on with the lifetime of the app the validated destination names, else of the system |
| SignIn.LoginActions.MaybeRedirectToTwoFactorPrompt | apps/admin/app/login/actions.ts:333-398 | the prompt is next exactly when both lookups answered, the user is not enrolled, prompting is on and the interval is over |
| SignIn.LoginActions.SignInWithPassword | apps/admin/app/login/actions.ts:227-324 | the password action, branch by branch, has the outcome and the cookie writes the attempt calls for, the exception on a null body included, and acts in the order its effects are listed |
| SignIn.LoginActions.VerifyOtp | apps/admin/app/login/actions.ts:423-479 | the same for the emailed code |
| SignIn.LoginActions.VerifySecondFactor | apps/admin/app/login/actions.ts:544-650 | the same for the authenticator and backup-code actions, which differ only in the endpoint |
| SignIn.RepliesAreReportedFairly | apps/admin/app/login/actions.ts:231-289 | each of the six error reports about the user, if and only if its cause: a throttled user or one without an active account is never told that the secret was wrong |
| SignIn.AcceptedRepliesOpenSessions | apps/admin/app/login/actions.ts:291-323 | when an accepted submission is challenged, throws, redirects, or reports the server's fault, in the fields of the reply |
| SignIn.LeadsOnlyToValidatedNext | apps/admin/app/login/actions.ts:317-323 | consent exactly if the named app has some outstanding, else perhaps the prompt, else the validated destination, else the users page; no redirect carries a destination the validator refused |
| SignIn.PromptIsForTheUnenrolled | apps/admin/app/login/actions.ts:333-398 | an enrolled user, one of whom a lookup failed, and a second factor are never sent to the prompt |
| SignIn.NeverPromptedIsPromptedIffOn | apps/admin/lib/two-factor-prompt.ts:8-20 | an unenrolled user never prompted before, with no consent outstanding, is prompted if and only if the app's switch, or else the system's, is on |
| SignIn.PromptedAgainIffIntervalIsOver | apps/admin/lib/two-factor-prompt.ts:8-20 | one prompted before is prompted again if and only if, besides, more than the app's positive interval, or else the system's, has passed |
| SignIn.DeviceIsTrustedForTheAppsDays | apps/admin/app/login/actions.ts:517-542 | the trust cookie written after a second factor lives for the app's positive number of days, or else the system's, and keeps its value and flags |
| SignIn.ChallengeIsPassedOn | apps/admin/app/account/security/actions.ts:38-94 | a challenge and a second factor pass the challenge cookie on with value, flags, path and lifetime |
| SignIn.SessionComesFirst | apps/admin/app/login/actions.ts:307-324 | in the effects of every run, each lookup, trust cookie and redirect comes after the session write of the same submission |
| SignIn.SessionIsNotTakenBack | apps/admin/app/login/actions.ts:313-323 | once a submission has written its session it ends in a redirect, never in an error, a challenge or an exception |
| SignIn.InterstitialsFollowTheirLookups | apps/admin/app/login/actions.ts:320-323 | a user is sent to consent straight from the consent lookup and to the prompt straight from the state lookups |
| SignIn.OnlyLoggedCookiesChange | apps/admin/app/login/actions.ts:135-167 | over every run a cookie changes only with an effect that says so |
| SignIn.ThrowsIffBodyIsNull | apps/admin/app/login/actions.ts:293-300 | some action of a run throws if and only if a 2xx reply to a password or a code had a null body |
| SignIn.SessionComesFromLastApproval | apps/admin/app/login/actions.ts:307-324 | after every run of submissions the session is the one the last approved submission brought |
| SignIn.UnapprovedRunsKeepSession | apps/admin/app/login/actions.ts:291-306 | a run without approval leaves the session the browser came with |
| SignIn.LookupsOnlySteer | apps/admin/app/login/actions.ts:333-398 | runs that differ only in what the lookups answered, failures included, leave the same cookies but for the trust cookie's lifetime, and end alike but for the place redirected to |
| SignIn.WrittenSessionIsStored | apps/admin/app/login/actions.ts:135-167 | the session cookie the auth server wrote is the one stored, value and attributes, with the defaults for what it does not say, wherever it stands in the header |
| SignIn.ExpiredChallengeIsCleared | apps/admin/app/login/actions.ts:581-582 | a challenge cookie the auth server expires is expired in the browser, wherever it stands in the header |
| NeonProvisioning.Cloud.EnsureProject | packages/deploy-render/src/neon.ts:38-73 | finds the project or creates it, call by call |
| NeonProvisioning.Cloud.EnsureTargetBranch | packages/deploy-render/src/neon.ts:92-131 | finds or creates the configured branch, or without a name takes the default one: the first marked default, else the first |
| NeonProvisioning.Cloud.EnsureRole | packages/deploy-render/src/neon.ts:137-160 | lists the roles and creates the missing one |
| NeonProvisioning.Cloud.EnsureDatabase | packages/deploy-render/src/neon.ts:162-186 | lists the databases and creates the missing one |
| NeonProvisioning.Cloud.SetAndVerifySecret | packages/deploy-render/src/githubSecrets.ts:79-89 | writes the secret and reads it back |
| NeonProvisioning.Cloud.EnsureNeonDatabase | packages/deploy-render/src/neon.ts:210-238 | a run that loses its connection after any number of calls leaves exactly the remote state of that many steps |
| NeonProvisioning.StepKeeps | packages/deploy-render/src/neon.ts:133-186 | every call keeps names unique and what the run has learned true, and none is refused: the role always exists before its database |
| NeonProvisioning.RunsConverge | packages/deploy-render/src/neon.ts:210-238 | from any state where each name occurs at most once, a found project has a branch, and a secret, if set, names a ready database: however many runs were interrupted wherever, one complete run leaves one project, one target branch, one role, one database and the secret, nothing that was there is lost or changed, nothing is added but what was missing, and the run says truly whether it set the secret |
| NeonProvisioning.StepGains | packages/deploy-render/src/neon.ts:111-186 | a call adds at most what the configuration names, where it is missing: a database owned by the role, a branch copied from the default one |
| NeonProvisioning.SecretNamesDefaultBranch | packages/deploy-render/src/neon.ts:92-99 | without a branch name, every complete run stores the connection of the first branch marked default, or of the first if none is |
| NeonProvisioning.MissingBranchIsCopied | packages/deploy-render/src/neon.ts:111-131 | a missing named branch is added as a copy of the default branch with its roles and databases, is the one whose connection is stored, and no other branch changes |
| NeonProvisioning.LaterRunsWriteNothing | packages/deploy-render/src/neon.ts:215-217 | once the secret is there, no run changes anything |
| NeonProvisioning.LostSecretIsRestored | packages/deploy-render/src/neon.ts:219-237 | after losing only the secret, a complete run restores it and creates nothing |
| EnvVars.MergeEnvVars | packages/deploy-render/src/render.ts:77-82 | the two loops over the map give the merged list |
| EnvVars.MergeIsOverride | packages/deploy-render/src/render.ts:74-82 | every variable of either list once, its last desired value if any else its last existing one, in order of first mention |
| EnvVars.MergeTwice | packages/deploy-render/src/render.ts:77-82 | merging twice is merging the concatenated desired lists, entry for entry |
| EnvVars.MergeIsIdempotent | packages/deploy-render/src/render.ts:84-95 | syncing again writes back the same list |
| EnvVars.RenderService.SyncManagedEnvVars | packages/deploy-render/src/render.ts:87-95 | a sync replaces the variables by the merge, or leaves them when the read or the write fails |
| AppsServices.AssertValidRedirectUris | apps/auth-server/src/apps/apps.service.ts:75-100 | accepts exactly lists of http(s) URIs of known kind without duplicates |
| AppsServices.KeysAreInjective | apps/auth-server/src/apps/apps.service.ts:90-98 | two valid rows have the same duplicate key if and only if they are the same |
| AppsServices.AppsService.CreateApp | apps/auth-server/src/apps/apps.service.ts:288-318 | creates the app with its redirects in one go, or fails with the right error and changes nothing |
| AppsServices.AppsService.UpdateApp | apps/auth-server/src/apps/apps.service.ts:320-439 | the checks in order, then all writes or none |
| AppsServices.AppsService.RotateClientSecret | apps/auth-server/src/apps/apps.service.ts:447-461 | replaces the client secret hash of an existing app and its time, and nothing else |
| AppsServices.AppsService.RotateWebhookSecret | apps/auth-server/src/apps/apps.service.ts:472-484 | replaces the webhook secret only where there is a usable URL |
| AppsServices.AppsService.DeleteApp | apps/auth-server/src/apps/apps.service.ts:486-500 | deletes an app that is not the platform's and has no dependents |
| AppsServices.RunKeepsInvariant | apps/auth-server/src/apps/apps.service.ts:288-500 | over every serial run: no webhook secret without a URL, distinct valid redirects, defaults that belong to the app, valid overrides, unique names |
| AppsServices.PlatformAppIsRotatedOnly | apps/auth-server/src/apps/apps.service.ts:355-490 | over every run the platform app stays, with the secrets of the last rotations of it that went through and every other field as it was |
| AppsServices.PlatformAppIsUntouchedIffNeverRotated | apps/auth-server/src/apps/apps.service.ts:447-490 | its row is the same throughout a run if and only if no call is a rotation of it that is permitted, has a usable URL where it needs one, and brings a new value |
| AppsServices.UnwrittenFieldsAreKept | apps/auth-server/src/apps/apps.service.ts:366-484 | over every run, a field of an app changes only by a call on that app that goes through and carries the field; clearing the webhook URL carries the secret's removal |
| AppsServices.LastWriteDecides | apps/auth-server/src/apps/apps.service.ts:288-484 | over every run, a field holds what the last call about it that went through brought: the value given, cleared or created, for default orgs and roles the id of the named row of that app |
| AppsServices.UpdateIsAcceptedIffResultIsValid | apps/auth-server/src/apps/apps.service.ts:320-439 | a permitted update of an app that is not the platform's goes through if and only if it carries something and some valid app with a free name is what it asks for |
| AppsServices.OtherCallsAreAcceptedIff | apps/auth-server/src/apps/apps.service.ts:288-500 | when each of the other calls goes through |
| AppsServices.ErrorsSayWhy | apps/auth-server/src/apps/apps.service.ts:288-500 | what Forbidden, NotFound and Conflict stand for, and when they are reported |
| AppsServices.UnpermittedCallsChangeNothing | apps/auth-server/src/apps/apps.service.ts:288-490 | a run does what it does without its unpermitted calls |
| AppsServices.NothingIsOrphaned | apps/auth-server/src/apps/apps.service.ts:486-500 | no run deletes an app from under an org, a role or a permission |
| AppsServices.StoredAppsAreClean | apps/auth-server/src/apps/apps.service.ts:75-170 | after every run, redirects are web addresses of the two kinds without duplicates, overrides are within bounds, and mail headers hold no line break |
| AppsServices.DeleteUndoesCreate | apps/auth-server/src/apps/apps.service.ts:288-500 | deleting a fresh app succeeds and gives the store back |
| AppsServices.HalfConfiguredIffUrlEmptied | apps/auth-server/src/apps/apps.service.ts:400-407 | over every run, no app ever has a secret without a usable URL if and only if no update that goes through sets the URL of an app with a secret to the empty text |
| AppsServices.NoRunHalfConfigures | apps/auth-server/src/apps/dto/update-app.dto.ts:102-108 | no run of requests whose URL is never the empty text, which the endpoint refuses, leaves a webhook half-configured |
| AppsServices.RowIsOnExactlyOnePage | apps/auth-server/src/apps/apps.service.ts:211-230 | skip and take show each row of a listing on one page and no other |
| AppsServices.PageIsAStretch | apps/auth-server/src/apps/apps.service.ts:211-230 | a page is a stretch of the listing, in order and no longer than asked |
| AppsServices.ListingIsLiteralSearch | apps/auth-server/src/apps/apps.service.ts:213-216 | a search for a text without backslashes lists exactly the apps whose name or URL contains it |
| SearchEscape.WithoutBackslashSearchIsLiteral | apps/auth-server/src/apps/apps.service.ts:213-216 | for every text without a backslash and every row, the LIKE match holds if and only if the row contains the text |
| SearchEscape.SearchIsLiteralIffNoBackslash | apps/auth-server/src/apps/apps.service.ts:213-216 | the search is literal on all rows if and only if the text has no backslash |
| OtlpHeaders.ParseOtlpHeaders | packages/telemetry/src/headers.ts:1-12 | the loop computes the headers of all segments, or fails as the decoder does |
| OtlpHeaders.ParseUndoesPrint | packages/telemetry/src/headers.ts:1-12 | parsing gives back any printed list of headers, however padded, later duplicates winning |
| OtlpHeaders.ParseIsPiecewise | packages/telemetry/src/headers.ts:4-10 | parsing a joined list merges its parts, later ones winning |
| OtlpHeaders.SegmentMeaning | packages/telemetry/src/headers.ts:4-10 | what one segment means: key before the first equals sign, value after it, both trimmed |
| OtlpHeaders.UndecodableValueFailsAll | packages/telemetry/src/headers.ts:9 | one undecodable value anywhere fails the whole list |
| OtlpHeaders.MalformedSegmentIsIgnored | packages/telemetry/src/headers.ts:5-9 | a segment without an equals sign or a key contributes nothing |
| OtlpHeaders.ReservedKeySetsNothing | packages/telemetry/src/headers.ts:9 | the property name that plain objects reserve sets no header |

## Left out

- ClientThroughput: the count is for a clock that does not step back; a request stamped before its window opened is not charged to it.
- Handle: the window, the budget and the clock are integers; an environment that configures fractions of a millisecond or of a request is not modelled.
- Finding the client's address and the session token in a request: both are inputs. The public-path test of the gateway and its redirect to the login page are not modelled.
- EvaluatePasswordPolicy: policies have integer bounds. Passwords are sequences of UTF-16 code units; elsewhere a string is a sequence of Unicode characters, so lone surrogates do not occur.
- FileIsAcceptedIffItFits: an allowed type stands for its own text in the pattern, as the four in use do; lists with other pattern characters are not modelled.
- ParseSessionCookie: the runtime's number and date conversions are parameters, and keyword case folding is ASCII.
- VerifySecondFactor: the jar holds the last cookie written under each of the three names; that the browser then drops an expired one is not modelled.
- Sign-in requests as they go out (origin, client address, trust cookie), spans, logging and error reporting. `requestOtp` writes nothing and is left out.
- Validating a next URL, redirect URI syntax, address syntax and public-id encoding are parameters.
- EnsureNeonDatabase: no other writer acts on the remote side during a run, the server lists in creation order and never loses entries, and a call that gets through is answered; the lengths of replies and the sealing of the secret are not modelled.
- Two provisioning runs at once: the protocol does not guard against them.
- RunKeepsInvariant: calls run one at a time; a rotation racing an update is not covered, nor is an org or a role deleted or moved by its own service.
- CreateApp: a failed transaction may still use up a numeric id in the database. Columns the service copies unread are one map.
- ListingIsLiteralSearch: the database's case folding is a parameter that merges nothing with LIKE's own characters.
- Racing service calls, HTTP, Prisma, BetterAuth, cryptography, token issuance, invitations and the rest of the user interface.
- Polling deploys and jobs, `ensureSecrets` and the command line: straight-line orchestration.
