# Token cache of the "like" proxy, modelled in Dafny

This project models `TokenCache` and `get_headers` from `app/token_manager.py`.
The web service uses them to get bearer tokens for the "ME" game server.

`TokenCache.get_tokens(server_key)` answers only for the allowed server "ME".
It refreshes the entry when the key is missing from the TTL cache or from the
last-refresh map, or when the last refresh is more than six hours old. It
stamps the last-refresh time whatever the refresh did, and returns what the
cache holds.

A refresh works through the loaded credentials in order. It asks the auth
endpoint for a token for each credential that has both a uid and a password:

- A credential counts only on status 200 with a non-empty token.
- Other per-credential failures are skipped: another status, an empty or
  missing token, a raised request, or a missing password.
- A credential without a uid aborts the whole refresh (see below).
- The loop stops at 100 tokens.
- When the loop completes, the cache entry is overwritten, with an empty list
  if nothing was found.
- When an exception escapes the loop, a live entry is kept, and otherwise
  becomes an empty list.

Everything is in one module, `TokenManager`, in `token_manager.dfy`:

- The constants of lines 14-19.
- Credentials, auth replies and the fate of one credential (`Classify`).
- The refresh loop twice: as a recursive specification (`Gather`) and as a
  `while` loop (`CollectTokens`) proved equal to it. `Gather` is also proved
  equal to an independent reference definition (`Reference`): filter the
  accepted credentials, cut at the first abort, keep the first 100.
- The TTL cache as a map from key to `Entry(tokens, stamped)`. An entry is
  visible while `now - stamped < 25200`.
- The class `TokenCache`, with fields `cache` and `lastRefresh` and the methods
  `GetTokens` and `RefreshTokens`. Two ghost fields record the auth requests
  sent and the record lists handed to the token file writer.
- `Headers`, and a parser for the Bearer credentials syntax of section 2.1 of
  RFC 6750 used as its inverse.

The outside world is passed in:

- The clock is the parameter `now`.
- What `_load_credentials` returned is a `Loaded` value: a list of attempts,
  or a value a `for` loop cannot walk.
- The auth endpoint's answer for each credential is the `reply` field of its
  `Attempt`.

The source's error behaviour is modelled as follows:

- A credential without `uid` aborts the whole refresh. Line 55 raises a
  KeyError. Line 75 indexes `uid` again inside the handler, so the second
  KeyError escapes to the outer handler at line 86. A list element that is not
  a JSON object fails the same way, so it is modelled as a credential without
  `uid`.
- A credential without `password` raises at line 55 too. That error is caught
  and the credential is skipped, and no request is sent for it.

## Model

| member | source | states |
|---|---|---|
| TokenManager.Classify | app/token_manager.py:53-76 | A credential aborts the refresh exactly when it has no uid. It is accepted exactly when a request is sent and the reply has status 200 and a non-empty token; the record then carries that uid and token. Anything else is skipped. |
| TokenManager.GatherIsReference | app/token_manager.py:53-76 | The loop aborts exactly when a credential without uid comes before the cap is reached. Otherwise it yields the first min(100, n) accepted records, where n is how many credentials before the first abort are accepted, in credential order. |
| TokenManager.GatherBound | app/token_manager.py:19 | A completed loop holds at most min(100, number of credentials) records, and every token in it is non-empty. |
| TokenManager.Consulted | app/token_manager.py:68-71 | The loop looks at no more credentials than there are, and it stops before the end only after an abort or once it holds exactly 100 records. |
| TokenManager.StoppedIgnoresRest | app/token_manager.py:68-71 | Once the loop has stopped, credentials appended after the stop point change neither the result nor the number of credentials consulted. |
| TokenManager.CollectTokens | app/token_manager.py:51-76 | The loop with append and early break returns exactly the specification `Gather(creds, 100)`. It sends one auth request for each consulted credential that has both uid and password. |
| TokenManager.Accepted | app/token_manager.py:60-66 | The uncapped list of accepted records is no longer than the credential list, and each of its tokens is non-empty. |
| TokenManager.FirstAbort | app/token_manager.py:53-76 | The first credential that aborts the loop is at the returned index, and no credential before it aborts. |
| TokenManager.Refreshed | app/token_manager.py:78-89 | A refresh changes only the entry for its key, and the key is live afterwards. After a completed loop the entry serves exactly the new tokens, so stale tokens are never kept. After an abort it serves what was served before: an old live entry is kept unchanged, stamp included, and otherwise the entry becomes [] stamped `now`. A completed loop stamps the entry with `now`. |
| TokenManager.RefreshedWellFormed | app/token_manager.py:62-84 | A refresh keeps every cached list within 100 entries with no empty token. After a completed loop the list is no longer than the credential list. |
| TokenManager.RefreshOpensWindow | app/token_manager.py:35-46 | For six hours after a refresh stamped at t, a new refresh is needed only if the entry has expired. The entry cannot expire in that window after a completed refresh, or after one that found no live entry. |
| TokenManager.TokenCache.constructor | app/token_manager.py:22-27 | A new cache has no entries and no refresh times. |
| TokenManager.TokenCache.GetTokens | app/token_manager.py:29-46 | A key other than "ME" gets [] and nothing changes. Inside the refresh window nothing changes, no request is sent, and the cached list is returned. Otherwise the cache becomes `Refreshed(...)`, the last-refresh time becomes `now` whatever the refresh did, the token file writer gets the records only when the loop completed with at least one, and the live list is returned. Every returned list is well-formed, and only "ME" ever enters either map. |
| TokenManager.TokenCache.RefreshTokens | app/token_manager.py:48-89 | The cache becomes `Refreshed(old cache, key, now, loop result)`. The auth requests sent are counted. The record list goes to the file writer only when the loop completed with at least one record. |
| TokenManager.SavedBy | app/token_manager.py:78-84 | The token file writer is called at most once per refresh, exactly when the loop completed with at least one record, and it gets those records. |
| TokenManager.Sent | app/token_manager.py:53-56 | No more requests than credentials are sent. The count equals the number of credentials exactly when each has both a uid and a password, and it is zero exactly when none has. |
| TokenManager.Headers | app/token_manager.py:117-127 | The Authorization field is "Bearer " followed by the token. |
| TokenManager.HeadersFixedButAuthorization | app/token_manager.py:117-127 | There are exactly eight header fields, and every field except Authorization is the same for all tokens. |
| TokenManager.HeadersCarryBearer | app/token_manager.py:122 | The Authorization value is valid Bearer credentials under section 2.1 of RFC 6750 exactly when the token, after any leading spaces, is a b64token. A receiver then reads back that token. |
| TokenManager.BearerRoundTrip | app/token_manager.py:122 | A b64token comes back out of the Authorization header unchanged. |

## Left out

- The HTTP request to the auth endpoint and JSON decoding of its body: each
  credential's outcome is an input (`Reply`). A token field that is present
  but is not a string is not modelled.
- Credential fields of other JSON types: `Credential` holds only strings or
  absent fields. In the source, a `uid` or `password` that is a number or
  `null` still leads to a request, because the query parameters accept
  numbers and drop `null`. Such a credential is not modelled.
- `_load_credentials`, which reads the environment and files: its result is an
  input (`Loaded`). It never raises, and its own failures yield an empty list.
- `_save_tokens_to_file`, a best-effort file write whose errors are swallowed:
  it is modelled only as the ghost log `saved`. It has no effect on the cache.
- The lock: each `get_tokens` call is treated as atomic.
- Logging, and the `servers_config` argument of the constructor, which is
  stored but never read.
- `time.time()` and the monotonic timer of `cachetools` are one integer clock
  `now`. Time is whole seconds, not floating point.
- A call takes no time in the model. The source reads the clock at line 35,
  before the credential loop. The liveness test at line 88, the new entry's
  timestamp (lines 79, 84, 89) and the read at line 46 all happen after the
  loop. So in the source, a live entry that expires during a long refresh
  that then aborts is replaced by `[]`. `Refreshed` keeps it.
- `TTLCache` internals: its `maxsize=5000` bound, and the purge of expired
  entries when a value is stored. An expired entry stays in the map but is
  invisible, which is all the source can observe.
- `app/__init__.py` (the web app wiring) is not part of this model.
