# Auth service and login rate limiter, modelled in Dafny

This project models the core of an authentication backend. It has two parts.

**Refresh-token lifecycle** (`auth_service.dfy`, module `Auth`). Registration
refuses taken usernames and emails. Login issues an access token and a random
refresh secret. The token store keeps only a hash of each secret, with its
owner, expiry instant and a revoked flag. A refresh exchanges a secret for a
new pair and revokes the old record (rotation). Logout revokes the record of a
secret.

- The functions `Issue`, `Rotate` and `Revoke` specify what each call does to
  the store as a value.
- `Run` replays any sequence of calls.
- The lemmas prove the lifecycle properties:
  - a revoked record stays revoked and unchanged forever;
  - a secret that has been exchanged once is refused as revoked on every
    later attempt, whatever happened in between;
  - a secret just issued can be exchanged up to and including its expiry
    instant;
  - logout is idempotent.
- The class `AuthService` holds the user and token repositories as fields. Its
  methods are proved to act on them exactly as the value-level functions say.

**Rate limiter** (`rate_limit.dfy`, module `RateLimit`). The interceptor
guards `/api/auth/login` and `/api/auth/register`. It allows each client
address five requests per endpoint in a fixed window. The window restarts once
it is more than 60000 ms old.

- `AttemptTracker` and `RateLimitInterceptor` are classes that update their
  fields in place, as in the source.
- Each class is proved to follow the value-level functions `AdmitWindow`,
  `Admit` and `Admission`.
- The lemmas prove:
  - no window ever counts more than five requests, whatever the sequence;
  - exactly the first five requests in a window are admitted;
  - the window is still closed at exactly 60000 ms and reopens one
    millisecond later;
  - distinct clients and endpoints never share a key.

Java's `String.split(",")` and `String.trim()` are modelled in
`java_strings.dfy` (module `JavaStrings`), because the client address is taken
from them. `wrappers.dfy` holds `Option` and `Result`.

Clocks, randomness and cryptography are parameters. The current instant is a
`now` argument, a whole number of milliseconds. The new random secret is a `secret` argument.
The SHA-256/Base64 hash, the JWT issuer, the password encoder and the
credential check are functions the service is constructed with.

## Model

All source paths are below `src/main/java/com/authutil/authmaster/`.

| member | source | states |
|---|---|---|
| Auth.FindByUsername | src/main/java/com/authutil/authmaster/service/AuthService.java:64 | Returns a user with the requested name when one exists, and nothing exactly when no user has that name. |
| Auth.FindByUsernameFinds | src/main/java/com/authutil/authmaster/service/AuthService.java:64 | When usernames are unique, looking up any stored user's name returns that very user. |
| Auth.ActiveUntilExpiry | src/main/java/com/authutil/authmaster/service/AuthService.java:117 | A record usable at some instant was usable at every earlier instant. Because `isBefore` is strict, it is still usable at its expiry instant and not one millisecond later. |
| Auth.Issue | src/main/java/com/authutil/authmaster/service/AuthService.java:86-102 | Adds exactly one record under the new hash: owned by the user, not revoked, expiring ttl after now. The record is usable at exactly the instants up to and including its expiry. Every other record is unchanged. |
| Auth.Rotate | src/main/java/com/authutil/authmaster/service/AuthService.java:107-132 | Checks in order for an unknown hash, a revoked record and an expired record, and fails exactly in each of those cases. An expired record is deleted; the other failures leave the store unchanged. An active record (expiry equal to now still counts) is revoked, a fresh record for the same user is issued, and nothing else changes. |
| Auth.Revoke | src/main/java/com/authutil/authmaster/service/AuthService.java:137-144 | Sets the revoked flag on the record with this hash, if there is one. An unknown hash changes nothing. The key set and all other records are unchanged. |
| Auth.LogoutIdempotent | src/main/java/com/authutil/authmaster/service/AuthService.java:137-144 | Logging out twice with the same secret leaves the same store as logging out once. |
| Auth.IssuedTokenRedeemable | src/main/java/com/authutil/authmaster/service/AuthService.java:95-97 | A newly issued secret can be exchanged for its owner up to and including now plus the TTL. After that it is refused as expired. |
| Auth.Apply | src/main/java/com/authutil/authmaster/service/AuthService.java:86-144 | A login, refresh or logout only keeps records or revokes them, and removes only records that are not revoked. A revoked record is never altered. |
| Auth.RunKeepsRevoked | src/main/java/com/authutil/authmaster/service/AuthService.java:113-115 | After any feasible sequence of logins, refreshes and logouts, every record that was revoked is still present and unchanged. |
| Auth.SingleUse | src/main/java/com/authutil/authmaster/service/AuthService.java:122-128 | Once a secret has been exchanged successfully, exchanging it again after any sequence of calls fails with "Refresh token has been revoked". |
| Auth.AuthService.constructor | src/main/java/com/authutil/authmaster/service/AuthService.java:31-41 | The service starts with the given collaborators and with the repositories' current contents, unchanged. The existing users must have unique usernames and emails and ids counting up from 1. |
| Auth.AuthService.Register | src/main/java/com/authutil/authmaster/service/AuthService.java:45-55 | Fails with "Username exists" exactly when the name is taken. Otherwise fails with "Email exists" exactly when the email is taken. Otherwise appends an enabled ROLE_USER user with the encoded password and the next id. Usernames and emails stay unique. |
| Auth.AuthService.CreateAndStoreRefreshToken | src/main/java/com/authutil/authmaster/service/AuthService.java:86-102 | Returns the raw secret and stores the record that Issue describes under the secret's hash. Hashing the returned secret therefore finds that record. |
| Auth.AuthService.Login | src/main/java/com/authutil/authmaster/service/AuthService.java:59-70 | Rejected credentials, or a missing user, leave the store unchanged. Otherwise the response carries the user's access token, the new secret and the username, and the store gains exactly the issued record. |
| Auth.AuthService.RefreshAccessToken | src/main/java/com/authutil/authmaster/service/AuthService.java:107-132 | The store after the call is exactly the one Rotate gives. The method fails with Rotate's error, or returns a new access token and the new secret for the token's owner. |
| Auth.AuthService.Logout | src/main/java/com/authutil/authmaster/service/AuthService.java:137-144 | The token store after the call is exactly Revoke applied to the hash of the secret. Users are unchanged. |
| RateLimit.ClientIpAsWritten | src/main/java/com/authutil/authmaster/security/RateLimitInterceptor.java:47-53 | Without a non-empty X-Forwarded-For header, the result is the peer address. Otherwise it is the trimmed first element of the header's Java split on commas, and the indexing fails when that split is empty. |
| RateLimit.ClientIpAsWrittenFails | src/main/java/com/authutil/authmaster/security/RateLimitInterceptor.java:50 | The source's address lookup fails exactly when the header is present and consists only of commas. |
| RateLimit.CommaHeaderThrows | src/main/java/com/authutil/authmaster/security/RateLimitInterceptor.java:50 | A login request whose X-Forwarded-For header is "," makes the lookup throw ArrayIndexOutOfBounds. |
| RateLimit.ClientIp | src/main/java/com/authutil/authmaster/security/RateLimitInterceptor.java:47-53 | The intended lookup never fails. Without a header it returns the peer address. With one it returns exactly the trimmed first comma-separated entry of the header, with no comma and no blank at either end. |
| RateLimit.ClientIpAgrees | src/main/java/com/authutil/authmaster/security/RateLimitInterceptor.java:47-53 | Whenever the source's lookup returns an address, it is the intended one. |
| RateLimit.RateKeyInjective | src/main/java/com/authutil/authmaster/security/RateLimitInterceptor.java:28-29 | On the two limited endpoints, the key `ip:endpoint` determines both the client address and the endpoint. |
| RateLimit.RateKey | src/main/java/com/authutil/authmaster/security/RateLimitInterceptor.java:29 | The key is the client address, one ':' and the endpoint, each recoverable at its position. |
| RateLimit.LimitedMatchesPattern | src/main/java/com/authutil/authmaster/security/RateLimitInterceptor.java:24 | A URI is limited exactly when it matches the pattern `^/api/auth/(login\|register)$`: the prefix `/api/auth/` followed by exactly `login` or `register`. |
| RateLimit.AdmitWindow | src/main/java/com/authutil/authmaster/security/RateLimitInterceptor.java:33-44 | Admits exactly when the window has expired or holds fewer than 5 requests. An admitted request counts toward the current window, or opens a new window at now when the old one has expired. A denied request leaves the window as it is. Counts stay within 0..5. |
| RateLimit.ExpiredStaysExpired | src/main/java/com/authutil/authmaster/security/RateLimitInterceptor.java:59-61 | Once a window has expired it stays expired. It is still live at exactly 60000 ms after its start and expired one millisecond later. |
| RateLimit.Admit | src/main/java/com/authutil/authmaster/security/RateLimitInterceptor.java:31-44 | A missing key gets a window starting now. Only that key's window changes. A denial changes nothing. The bound of 5 on every count is preserved. |
| RateLimit.Admission | src/main/java/com/authutil/authmaster/security/RateLimitInterceptor.java:20-45 | Other endpoints pass with no change. A limited endpoint gets exactly Admit's decision and windows under the key `ClientIp:uri`. It changes only that key, keeps every existing key, and preserves the bound. The client is found with the corrected lookup `ClientIp`. |
| RateLimit.AdmissionAsWritten | src/main/java/com/authutil/authmaster/security/RateLimitInterceptor.java:20-45 | Other endpoints pass with no change. On a limited endpoint the source's lookup runs first, and its failure is the call's result. |
| RateLimit.AdmissionAsWrittenAgrees | src/main/java/com/authutil/authmaster/security/RateLimitInterceptor.java:28-50 | The source's `preHandle` throws exactly on a limited endpoint whose X-Forwarded-For header is only commas. Otherwise it decides and updates the trackers exactly as Admission does. |
| RateLimit.Replay | src/main/java/com/authutil/authmaster/security/RateLimitInterceptor.java:20-45 | A sequence of requests gives one decision per request, and no tracker key is ever removed. |
| RateLimit.ReplayKeepsBound | src/main/java/com/authutil/authmaster/security/RateLimitInterceptor.java:37-44 | After any sequence of requests, no window counts more than 5. |
| RateLimit.ReplayPassesUnlimited | src/main/java/com/authutil/authmaster/security/RateLimitInterceptor.java:24-26 | In any sequence of requests, every request to an endpoint other than login and register is admitted. |
| RateLimit.BurstInWindow | src/main/java/com/authutil/authmaster/security/RateLimitInterceptor.java:33-44 | Within one unexpired window that already holds c requests, the i-th further request is admitted exactly when c + i < 5, and the window keeps its start. |
| RateLimit.FirstFiveAdmitted | src/main/java/com/authutil/authmaster/security/RateLimitInterceptor.java:31-44 | For a new or expired key, requests within 60000 ms of the first are admitted exactly for the first five. |
| RateLimit.LimitScenario | src/main/java/com/authutil/authmaster/security/RateLimitInterceptor.java:59-61 | Six simultaneous requests give five admissions and then a denial. The key is still denied at exactly 60000 ms later and admitted one millisecond after that. |
| RateLimit.AttemptTracker.constructor | src/main/java/com/authutil/authmaster/security/RateLimitInterceptor.java:56-57 | A new tracker has count 0 and a window starting now. |
| RateLimit.AttemptTracker.IsExpired | src/main/java/com/authutil/authmaster/security/RateLimitInterceptor.java:59-61 | The tracker is expired exactly when its window, taken as a value, is Expired. |
| RateLimit.AttemptTracker.Reset | src/main/java/com/authutil/authmaster/security/RateLimitInterceptor.java:63-66 | Sets the count to 0 and restarts the window at now. |
| RateLimit.AttemptTracker.Check | src/main/java/com/authutil/authmaster/security/RateLimitInterceptor.java:33-44 | The tracker's decision and new fields are exactly what AdmitWindow gives for its old fields. |
| RateLimit.RateLimitInterceptor.constructor | src/main/java/com/authutil/authmaster/security/RateLimitInterceptor.java:17 | The interceptor starts with no trackers. |
| RateLimit.RateLimitInterceptor.TrackerFor | src/main/java/com/authutil/authmaster/security/RateLimitInterceptor.java:31 | Returns the key's existing tracker. When the key has none, it creates and stores a fresh tracker starting now. No other entry changes. |
| RateLimit.RateLimitInterceptor.CheckTracker | src/main/java/com/authutil/authmaster/security/RateLimitInterceptor.java:33-44 | Checking the tracker stored under a key gives AdmitWindow's decision, and only that key's window changes, to AdmitWindow's result. |
| RateLimit.RateLimitInterceptor.AdmitKey | src/main/java/com/authutil/authmaster/security/RateLimitInterceptor.java:31-44 | Fetching or creating the key's tracker and checking it gives exactly Admit's decision and windows. Existing trackers are kept, and every count stays within the bound. |
| RateLimit.RateLimitInterceptor.PreHandle | src/main/java/com/authutil/authmaster/security/RateLimitInterceptor.java:20-45 | The decision and the trackers' new values are exactly what Admission gives for their old values, so the client is found with the corrected lookup. Existing trackers are never replaced, and every count stays at most 5. |
| JavaStrings.Trim | src/main/java/com/authutil/authmaster/security/RateLimitInterceptor.java:50 | Returns a contiguous piece of the string that neither starts nor ends with a character at or below U+0020. Every character removed before or after it is one. |
| JavaStrings.FirstField | src/main/java/com/authutil/authmaster/security/RateLimitInterceptor.java:50 | Returns the longest comma-free prefix of the string; it is followed by a comma unless it is the whole string. |
| JavaStrings.DropTrailingEmpty | src/main/java/com/authutil/authmaster/security/RateLimitInterceptor.java:50 | Drops only trailing empty strings, leaves a non-empty last element, and is empty exactly when every element was empty. |
| JavaStrings.JoinFields | src/main/java/com/authutil/authmaster/security/RateLimitInterceptor.java:50 | Joining the comma-separated fields of a string with commas gives back the string. |
| JavaStrings.Split | src/main/java/com/authutil/authmaster/security/RateLimitInterceptor.java:50 | No element of `split(",")` contains a comma. A string without a comma is its own single element, even when empty. Otherwise the last element is never empty. |
| JavaStrings.SplitEmptyIff | src/main/java/com/authutil/authmaster/security/RateLimitInterceptor.java:50 | `split(",")` returns an empty array exactly when the string is non-empty and made only of commas. |
| JavaStrings.SplitHead | src/main/java/com/authutil/authmaster/security/RateLimitInterceptor.java:50 | When `split(",")` is non-empty, its first element is the string's first comma-free field. |

## Left out

- Concurrency is left out. The source uses a `ConcurrentHashMap` and an `AtomicInteger`, but its check-then-increment is not atomic. The model treats each request as one indivisible step.
- Persistence and transactions are left out. JPA saves are map updates. There is no rollback, and no uniqueness constraint on the hash column beyond what the map gives.
- Freshness of new secrets is an assumption, not a proof. Every operation that issues a secret requires its hash to be absent from the store. This stands for the entropy of two random UUIDs and for SHA-256 collision resistance.
- The hash itself (SHA-256, then Base64) is an abstract function. Its "Error hashing token" path is left out. That path is reached only by a null secret, such as a missing cookie, and null is not modelled.
- The access-token issuer is an abstract function of username and id (`jwtUtils.generateAccessToken`). `JwtUtils.java` is not part of this model. Login's response takes the username from the user directly. The source instead reads it back from the token with `getUsernameFromToken`, which the model assumes returns the same name.
- Spring's authentication manager is abstract. It becomes a Boolean credential check fixed at construction. Disabled accounts and the other reasons Spring may reject a login are folded into that check.
- The password encoder is an abstract function. Login never calls it; only registration stores its output.
- Auth.AuthService.Register: user ids are sequential (1, 2, …), standing for the database's identity column.
- Auth.AuthService.constructor: the repositories' existing users must already have ids 1, 2, … in order. A repository whose ids have gaps, for example after deletions, is not modelled.
- RateLimit.Admission and RateLimit.Replay: find the client with the corrected lookup `ClientIp`. On a limited endpoint whose X-Forwarded-For header is only commas, the source throws at `RateLimitInterceptor.java:50` and leaves the trackers unchanged. These members decide instead, and `Replay` folds such a decision into the sequence. `RateLimit.AdmissionAsWritten` models the source's behaviour, and `RateLimit.AdmissionAsWrittenAgrees` proves the two agree on every other request.
- RateLimit.RateLimitInterceptor.PreHandle: follows `Admission`, so it shares that member's corrected lookup. On an all-comma X-Forwarded-For header it decides and may create a tracker, where the source throws and touches no tracker.
- Auth.AuthService.constructor: the refresh TTL comes from the system property `app.jwt.refresh-expiration-ms`, and the source reads it again on every call. The model fixes it at construction as `refreshTtl`, so a property changed while the service runs is not modelled. The default is `DEFAULT_REFRESH_TTL_MS`. The TTL is any integer, so a negative property value issues tokens that are already expired. A value that does not parse as a long, and so throws, is left out.
- Instants and the 64-bit `long` arithmetic on them are unbounded integers. Overflow near the end of the `long` range is not modelled.
- Auth.Rotate: instants are whole milliseconds. `Instant.now()` has finer resolution, and `isBefore` compares at that resolution. Two instants within the same millisecond are therefore equal in the model, though the source may order them.
- Auth.Rotate: each call reads the clock once, as `now`. The source's `refreshAccessToken` reads it twice: once for the expiry check (AuthService.java:117), and again when the replacement token's expiry is computed (AuthService.java:95, reached from :128). The model's replacement expires at `now + ttl` from the first reading, not the slightly later second one.
- RateLimit.AdmitWindow: one `now` per request stands for the source's separate clock reads in the tracker's constructor, in `isExpired` and in `reset` (RateLimitInterceptor.java:57, :60, :65). A request that spans a millisecond boundary is not modelled.
- Roles: only ROLE_USER exists in the model, because registration only ever assigns that role.
- The HTTP layer is left out of the rate limiter. The 429 status and its JSON body are represented by the `false` decision. The request is reduced to its URI, the X-Forwarded-For header and the peer address.
- The controller, cookie handling, the dashboard and the user-details service are not part of this model.
- `AuthService` has no scenario method. The single-use property of rotation is proved about the value-level functions in `Auth.SingleUse`. The class methods are tied to those functions by their postconditions.

## Findings

| source | as written | input that shows it | evidently intended | confidence | as-written member | corrected member |
|---|---|---|---|---|---|---|
| src/main/java/com/authutil/authmaster/security/RateLimitInterceptor.java:50 | `xForwardedFor.split(",")[0]` indexes the split result without checking it. Java's `split` drops trailing empty strings, so a header made only of commas yields an empty array. | A request to /api/auth/login with `X-Forwarded-For: ,` makes `preHandle` throw ArrayIndexOutOfBoundsException instead of deciding (`RateLimit.CommaHeaderThrows`; at the `preHandle` level, `RateLimit.AdmissionAsWrittenAgrees`). | Take the first comma-separated entry, which may be empty, and never fail. | not executed | RateLimit.ClientIpAsWritten | RateLimit.ClientIp |
