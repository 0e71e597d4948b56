/**
 * The token cache of the "like" proxy (app/token_manager.py).
 *
 * A `TokenCache` holds, per server key, the list of bearer tokens obtained
 * by exchanging stored game-account credentials at an auth endpoint, and the
 * time of the last refresh.  Only the server "ME" is ever served.  A refresh
 * walks the credentials in order, keeps at most MAX_TOKENS tokens, skips any
 * credential whose exchange fails, and either overwrites the entry with what
 * it found or, when the whole refresh aborts, keeps an existing entry.
 *
 * The outside world is passed in: the clock as `now`, the credential loader's
 * result as a `Loaded` value, and the auth endpoint's answer for each
 * credential as the `reply` of an `Attempt`.
 */
module TokenManager {

  datatype Option<T> = None | Some(value: T)

  function Min(a: int, b: int): int { if a <= b then a else b }

  /* ---------------------------------------------------------------------
   * Constants
   * --------------------------------------------------------------------- */

  /** Time-to-live of a cache entry: seven hours, in seconds. */
  const CACHE_DURATION: int := 25200
  /** Age of the last refresh after which a new one is started: six hours. */
  const TOKEN_REFRESH_THRESHOLD: int := 21600
  /** The only server key that is ever served. */
  const ALLOWED_SERVER: string := "ME"
  /** A refresh stops as soon as it holds this many tokens. */
  const MAX_TOKENS: nat := 100

  /* ---------------------------------------------------------------------
   * Credentials and what the auth endpoint answers
   * --------------------------------------------------------------------- */

  /**
   * One element of the loaded credential list.  A field is None when the
   * JSON object lacks it; an element that is not an object at all fails on
   * indexing exactly like one without "uid", so it is modelled that way.
   */
  datatype Credential = Credential(uid: Option<string>, password: Option<string>)

  /** The outcome of asking the auth endpoint for one credential's token. */
  datatype Reply =
    | Response(status: int, token: Option<string>)  // token: the body's "token" field, None when absent
    | Raised                                          // the request, or decoding its body, raised

  /** A credential together with the reply the endpoint gives for it (unused when no request is sent). */
  datatype Attempt = Attempt(user: Credential, reply: Reply)

  /** What the credential loader hands to a refresh. */
  datatype Loaded =
    | Accounts(attempts: seq<Attempt>)  // a list (possibly empty: the loader's own failures yield [])
    | NotIterable                        // a JSON value that a `for` loop cannot walk

  datatype TokenRecord = TokenRecord(uid: string, token: string)

  /** What the refresh loop does with one credential. */
  datatype Step = Accept(record: TokenRecord) | Skip | Abort

  /** A request goes out exactly when both query parameters can be read. */
  predicate RequestSent(a: Attempt)
  {
    a.user.uid.Some? && a.user.password.Some?
  }

  /**
   * The fate of one credential in the refresh loop: accepted on status 200
   * with a non-empty token; skipped on any other status, an empty or missing
   * token, a raised request, or a missing password (the handler catches the
   * KeyError); the whole refresh aborts when "uid" is missing, because the
   * handler's own log line indexes "uid" again and that KeyError escapes.
   */
  function Classify(a: Attempt): (s: Step)
    ensures s.Abort? <==> a.user.uid.None?
    ensures s.Accept? ==> RequestSent(a) && s.record.uid == a.user.uid.value
    ensures s.Accept? <==> RequestSent(a) && a.reply.Response? && a.reply.status == 200
                           && a.reply.token.Some? && a.reply.token.value != ""
    ensures s.Accept? ==> s.record.token == a.reply.token.value
  {
    match a.user.uid
    case None => Abort
    case Some(uid) =>
      if a.user.password.None? then Skip
      else
        match a.reply
        case Raised => Skip
        case Response(status, token) =>
          if status == 200 && token.Some? && token.value != "" then Accept(TokenRecord(uid, token.value))
          else Skip
  }

  /* ---------------------------------------------------------------------
   * The refresh loop, as a specification
   * --------------------------------------------------------------------- */

  /** The result of the credential loop: the accepted records, or an escaped exception. */
  datatype Harvest = Completed(records: seq<TokenRecord>) | Aborted

  function Glue(acc: seq<TokenRecord>, h: Harvest): Harvest
  {
    match h
    case Completed(rs) => Completed(acc + rs)
    case Aborted => Aborted
  }

  /**
   * The loop over `creds` when `room` more tokens may be accepted before it
   * stops; a refresh runs it with room MAX_TOKENS.
   */
  function Gather(creds: seq<Attempt>, room: nat): Harvest
    requires room >= 1
    decreases |creds|
  {
    if creds == [] then Completed([])
    else
      match Classify(creds[0])
      case Abort => Aborted
      case Skip => Gather(creds[1..], room)
      case Accept(rec) =>
        if room == 1 then Completed([rec]) else Glue([rec], Gather(creds[1..], room - 1))
  }

  /** How many credentials the loop looks at before it stops or runs out. */
  function Consulted(creds: seq<Attempt>, room: nat): (n: nat)
    requires room >= 1
    ensures n <= |creds|
    ensures n < |creds| ==> Gather(creds, room).Aborted? || |Gather(creds, room).records| == room
    decreases |creds|
  {
    if creds == [] then 0
    else
      match Classify(creds[0])
      case Abort => 1
      case Skip => 1 + Consulted(creds[1..], room)
      case Accept(_) => if room == 1 then 1 else 1 + Consulted(creds[1..], room - 1)
  }

  /**
   * Number of credentials in `creds` for which an auth request is sent.
   * It peels off the last credential, so that it follows the loop, which
   * counts `creds[..i]` one credential at a time.
   */
  function Sent(creds: seq<Attempt>): (n: nat)
    ensures n <= |creds|
    ensures n == |creds| <==> forall i :: 0 <= i < |creds| ==> RequestSent(creds[i])
    ensures n == 0 <==> forall i :: 0 <= i < |creds| ==> !RequestSent(creds[i])
  {
    if creds == [] then 0
    else Sent(creds[..|creds| - 1]) + (if RequestSent(creds[|creds| - 1]) then 1 else 0)
  }

  /* Reference definition: filter, then cut at the first abort and at the cap. */

  /** Every record the credentials would yield, in order, with no cap. */
  function Accepted(creds: seq<Attempt>): (rs: seq<TokenRecord>)
    ensures |rs| <= |creds|
    ensures forall i :: 0 <= i < |rs| ==> rs[i].token != ""
  {
    if creds == [] then []
    else (match Classify(creds[0]) case Accept(r) => [r] case _ => []) + Accepted(creds[1..])
  }

  /** Index of the first credential that aborts a refresh, or |creds| when none does. */
  function FirstAbort(creds: seq<Attempt>): (j: nat)
    ensures j <= |creds|
    ensures j < |creds| ==> Classify(creds[j]).Abort?
    ensures forall i :: 0 <= i < j ==> !Classify(creds[i]).Abort?
  {
    if creds == [] then 0
    else if Classify(creds[0]).Abort? then 0
    else 1 + FirstAbort(creds[1..])
  }

  function Reference(creds: seq<Attempt>, room: nat): Harvest
    requires room >= 1
  {
    var j := FirstAbort(creds);
    var before := Accepted(creds[..j]);
    if j < |creds| && |before| < room then Aborted
    else Completed(before[..Min(room, |before|)])
  }

  lemma AcceptedCons(a: Attempt, rest: seq<Attempt>)
    ensures Accepted([a] + rest) == (if Classify(a).Accept? then [Classify(a).record] else []) + Accepted(rest)
  {
  }

  /** Past a head that does not abort, the reference looks at the tail. */
  lemma AcceptedBeforeAbortCons(creds: seq<Attempt>)
    requires creds != [] && !Classify(creds[0]).Abort?
    ensures FirstAbort(creds) == 1 + FirstAbort(creds[1..])
    ensures Accepted(creds[..FirstAbort(creds)])
            == (if Classify(creds[0]).Accept? then [Classify(creds[0]).record] else [])
               + Accepted(creds[1..][..FirstAbort(creds[1..])])
  {
    var j' := FirstAbort(creds[1..]);
    assert creds[..1 + j'] == [creds[0]] + creds[1..][..j'];
    AcceptedCons(creds[0], creds[1..][..j']);
  }

  lemma TakeCons(rec: TokenRecord, rs: seq<TokenRecord>, room: nat)
    requires room >= 2
    ensures ([rec] + rs)[..Min(room, 1 + |rs|)] == [rec] + rs[..Min(room - 1, |rs|)]
  {
  }

  /**
   * The loop aborts exactly when a credential without "uid" comes before the
   * cap is reached; otherwise it yields the first MAX_TOKENS accepted records,
   * in credential order.
   */
  lemma {:induction false} GatherIsReference(creds: seq<Attempt>, room: nat)
    requires room >= 1
    ensures Gather(creds, room) == Reference(creds, room)
    decreases |creds|
  {
    if creds == [] {
      assert creds[..0] == [];
    } else if Classify(creds[0]).Abort? {
      assert creds[..0] == [];
    } else {
      AcceptedBeforeAbortCons(creds);
      var rest := creds[1..];
      var before' := Accepted(rest[..FirstAbort(rest)]);
      match Classify(creds[0])
      case Skip =>
        GatherIsReference(rest, room);
      case Accept(rec) =>
        if room > 1 {
          GatherIsReference(rest, room - 1);
          TakeCons(rec, before', room);
        } else {
          assert ([rec] + before')[..1] == [rec];
        }
    }
  }

  /** The loop never holds more than `room` records, nor more than there are credentials. */
  lemma {:induction false} GatherBound(creds: seq<Attempt>, room: nat)
    requires room >= 1
    ensures Gather(creds, room).Completed? ==>
              |Gather(creds, room).records| <= Min(room, |creds|)
              && forall i :: 0 <= i < |Gather(creds, room).records| ==> Gather(creds, room).records[i].token != ""
  {
    GatherIsReference(creds, room);
  }

  /**
   * Once the loop has stopped (an abort, or the cap reached), whatever
   * credentials come after are never consulted and change nothing.
   */
  lemma {:induction false} StoppedIgnoresRest(creds: seq<Attempt>, more: seq<Attempt>, room: nat)
    requires room >= 1
    requires Gather(creds, room).Aborted? || |Gather(creds, room).records| == room
    ensures Gather(creds + more, room) == Gather(creds, room)
    ensures Consulted(creds + more, room) == Consulted(creds, room)
    decreases |creds|
  {
    if creds == [] {
      assert false;
    } else {
      assert (creds + more)[0] == creds[0];
      assert (creds + more)[1..] == creds[1..] + more;
      match Classify(creds[0])
      case Abort =>
      case Skip =>
        StoppedIgnoresRest(creds[1..], more, room);
      case Accept(rec) =>
        if room > 1 {
          StoppedIgnoresRest(creds[1..], more, room - 1);
        }
    }
  }

  /* ---------------------------------------------------------------------
   * The refresh loop, as a program
   * --------------------------------------------------------------------- */

  lemma GlueGlue(acc: seq<TokenRecord>, rec: TokenRecord, h: Harvest)
    ensures Glue(acc, Glue([rec], h)) == Glue(acc + [rec], h)
  {
  }

  /**
   * The credential loop of a refresh: walks the credentials in order,
   * appends each accepted record, stops at MAX_TOKENS, and reports an
   * escaped exception as Aborted.  Also counts the auth requests it sends.
   */
  method CollectTokens(creds: seq<Attempt>) returns (h: Harvest, requests: nat)
    ensures h == Gather(creds, MAX_TOKENS)
    ensures requests == Sent(creds[..Consulted(creds, MAX_TOKENS)])
  {
    var tokens: seq<TokenRecord> := [];
    requests := 0;
    var i := 0;
    while i < |creds|
      invariant 0 <= i <= |creds|
      invariant |tokens| < MAX_TOKENS
      invariant Gather(creds, MAX_TOKENS) == Glue(tokens, Gather(creds[i..], MAX_TOKENS - |tokens|))
      invariant Consulted(creds, MAX_TOKENS) == i + Consulted(creds[i..], MAX_TOKENS - |tokens|)
      invariant requests == Sent(creds[..i])
    {
      var room := MAX_TOKENS - |tokens|;
      assert creds[i..][0] == creds[i] && creds[i..][1..] == creds[i + 1..];
      assert creds[..i + 1][..i] == creds[..i];
      var user := creds[i].user;
      match user.uid {
        case None =>
          // The handler logs user['uid'] again; that KeyError leaves the loop.
          h := Aborted;
          return;
        case Some(uid) =>
          if user.password.Some? {
            requests := requests + 1;
            match creds[i].reply {
              case Raised =>
              case Response(status, token) =>
                if status == 200 && token.Some? && token.value != "" {
                  var rec := TokenRecord(uid, token.value);
                  tokens := tokens + [rec];
                  if |tokens| >= MAX_TOKENS {
                    // The cap is reached: the loop breaks.
                    assert Gather(creds[i..], room) == Completed([rec]);
                    h := Completed(tokens);
                    return;
                  }
                  GlueGlue(tokens[..|tokens| - 1], rec, Gather(creds[i + 1..], room - 1));
                  assert tokens[..|tokens| - 1] + [rec] == tokens;
                }
            }
          }
      }
      i := i + 1;
    }
    h := Completed(tokens);
  }

  /* ---------------------------------------------------------------------
   * The TTL cache and the refresh decision
   * --------------------------------------------------------------------- */

  /** A cache value with the time it was stored; it expires CACHE_DURATION later. */
  datatype Entry = Entry(tokens: seq<string>, stamped: int)

  /** Whether `key` is still present in the TTL cache at time `now`. */
  predicate Live(cache: map<string, Entry>, key: string, now: int)
  {
    key in cache && now - cache[key].stamped < CACHE_DURATION
  }

  /** `cache.get(key, [])` at time `now`. */
  function Lookup(cache: map<string, Entry>, key: string, now: int): seq<string>
  {
    if Live(cache, key, now) then cache[key].tokens else []
  }

  /** The refresh rule of get_tokens. */
  predicate RefreshNeeded(cache: map<string, Entry>, lastRefresh: map<string, int>, key: string, now: int)
  {
    !Live(cache, key, now) || key !in lastRefresh || now - lastRefresh[key] > TOKEN_REFRESH_THRESHOLD
  }

  /** A cached token list: within the cap, and every token non-empty. */
  predicate WellFormed(tokens: seq<string>)
  {
    |tokens| <= MAX_TOKENS && forall i :: 0 <= i < |tokens| ==> tokens[i] != ""
  }

  function TokensOf(records: seq<TokenRecord>): seq<string>
  {
    seq(|records|, i requires 0 <= i < |records| => records[i].token)
  }

  /** What the credential loop yields for what the loader returned. */
  function HarvestOf(loaded: Loaded): Harvest
  {
    match loaded
    case NotIterable => Aborted
    case Accounts(creds) => Gather(creds, MAX_TOKENS)
  }

  /** What a refresh hands to the token file writer: the records, only when there are some. */
  function SavedBy(h: Harvest): (w: seq<seq<TokenRecord>>)
    ensures |w| <= 1
    ensures w != [] <==> h.Completed? && h.records != []
    ensures w != [] ==> w[0] == h.records
  {
    match h
    case Completed(rs) => if rs != [] then [rs] else []
    case Aborted => []
  }

  /** How many auth requests a refresh sends for what the loader returned. */
  function Requests(loaded: Loaded): nat
  {
    match loaded
    case NotIterable => 0
    case Accounts(creds) => Sent(creds[..Consulted(creds, MAX_TOKENS)])
  }

  /**
   * The cache after a refresh of `key` at `now` whose loop gave `h`: a
   * completed loop overwrites the entry with its tokens (possibly none); an
   * aborted one keeps a live entry and otherwise stores an empty list.
   */
  function Refreshed(cache: map<string, Entry>, key: string, now: int, h: Harvest): (r: map<string, Entry>)
    ensures r.Keys == cache.Keys + {key}
    ensures forall k :: k in cache && k != key ==> r[k] == cache[k]
    ensures Live(r, key, now)
    ensures Lookup(r, key, now) == if h.Completed? then TokensOf(h.records) else Lookup(cache, key, now)
    ensures h.Completed? ==> r[key].stamped == now
    ensures h.Aborted? && Live(cache, key, now) ==> r == cache
    ensures h.Aborted? && !Live(cache, key, now) ==> r[key] == Entry([], now)
  {
    match h
    case Completed(records) => cache[key := Entry(TokensOf(records), now)]
    case Aborted => if Live(cache, key, now) then cache else cache[key := Entry([], now)]
  }

  /**
   * A refresh keeps every cached list within the cap and free of empty
   * tokens; a completed one stores no more tokens than there were credentials.
   */
  lemma RefreshedWellFormed(cache: map<string, Entry>, key: string, now: int, loaded: Loaded)
    requires forall k :: k in cache ==> WellFormed(cache[k].tokens)
    ensures forall k :: k in Refreshed(cache, key, now, HarvestOf(loaded)) ==>
              WellFormed(Refreshed(cache, key, now, HarvestOf(loaded))[k].tokens)
    ensures HarvestOf(loaded).Completed? && loaded.Accounts? ==>
              |Refreshed(cache, key, now, HarvestOf(loaded))[key].tokens| <= Min(MAX_TOKENS, |loaded.attempts|)
  {
    if loaded.Accounts? {
      GatherBound(loaded.attempts, MAX_TOKENS);
    }
  }

  /**
   * After a refresh at `t`, no refresh is needed for THRESHOLD seconds as
   * long as the entry stays live; it always does unless an aborted refresh
   * kept an older entry, which then expires on its own schedule.
   */
  lemma RefreshOpensWindow(cache: map<string, Entry>, lastRefresh: map<string, int>, key: string,
                           t: int, h: Harvest, now: int)
    requires t <= now <= t + TOKEN_REFRESH_THRESHOLD
    ensures (RefreshNeeded(Refreshed(cache, key, t, h), lastRefresh[key := t], key, now)
             <==> !Live(Refreshed(cache, key, t, h), key, now))
    ensures h.Completed? || !Live(cache, key, t) ==>
              !RefreshNeeded(Refreshed(cache, key, t, h), lastRefresh[key := t], key, now)
  {
  }

  /* ---------------------------------------------------------------------
   * The cache object
   * --------------------------------------------------------------------- */

  class TokenCache {
    /** The TTL cache: server key to token list, with the time each entry was stored. */
    var cache: map<string, Entry>
    /** Server key to the time of its last refresh. */
    var lastRefresh: map<string, int>
    /** Auth requests sent so far (an observation, not program state). */
    ghost var authRequests: nat
    /** The record lists handed to the token file writer, oldest first. */
    ghost var saved: seq<seq<TokenRecord>>

    ghost predicate Valid()
      reads this
    {
      forall k :: k in cache ==> WellFormed(cache[k].tokens)
    }

    constructor ()
      ensures Valid()
      ensures cache == map[] && lastRefresh == map[]
      ensures authRequests == 0 && saved == []
    {
      cache := map[];
      lastRefresh := map[];
      authRequests := 0;
      saved := [];
    }

    /**
     * The tokens to use for `key` at time `now`.  `loaded` is what the
     * credential loader and the auth endpoint would produce if a refresh ran.
     */
    method GetTokens(key: string, now: int, loaded: Loaded) returns (tokens: seq<string>)
      requires Valid()
      modifies this
      ensures Valid()
      ensures key != ALLOWED_SERVER ==> tokens == [] && unchanged(this)
      ensures key == ALLOWED_SERVER && !old(RefreshNeeded(cache, lastRefresh, key, now)) ==>
                unchanged(this) && tokens == cache[key].tokens
      ensures key == ALLOWED_SERVER && old(RefreshNeeded(cache, lastRefresh, key, now)) ==>
                && cache == Refreshed(old(cache), key, now, HarvestOf(loaded))
                && lastRefresh == old(lastRefresh)[key := now]
                && authRequests == old(authRequests) + Requests(loaded)
                && saved == old(saved) + SavedBy(HarvestOf(loaded))
                && tokens == Lookup(cache, key, now)
      ensures WellFormed(tokens)
      ensures old(cache.Keys) <= {ALLOWED_SERVER} ==> cache.Keys <= {ALLOWED_SERVER}
      ensures old(lastRefresh.Keys) <= {ALLOWED_SERVER} ==> lastRefresh.Keys <= {ALLOWED_SERVER}
    {
      if key != ALLOWED_SERVER {
        return [];
      }
      var refreshNeeded := !Live(cache, key, now) || key !in lastRefresh
                           || now - lastRefresh[key] > TOKEN_REFRESH_THRESHOLD;
      if refreshNeeded {
        RefreshTokens(key, now, loaded);
        lastRefresh := lastRefresh[key := now];
      }
      tokens := Lookup(cache, key, now);
    }

    /** Refresh the entry for `key` at time `now` from what the loader returned. */
    method RefreshTokens(key: string, now: int, loaded: Loaded)
      requires Valid()
      modifies this
      ensures Valid()
      ensures cache == Refreshed(old(cache), key, now, HarvestOf(loaded))
      ensures lastRefresh == old(lastRefresh)
      ensures authRequests == old(authRequests) + Requests(loaded)
      ensures saved == old(saved) + SavedBy(HarvestOf(loaded))
    {
      RefreshedWellFormed(cache, key, now, loaded);
      var h: Harvest := Aborted;
      match loaded {
        case NotIterable =>
        case Accounts(creds) =>
          var requests;
          h, requests := CollectTokens(creds);
          authRequests := authRequests + requests;
      }
      match h {
        case Completed(records) =>
          if records != [] {
            cache := cache[key := Entry(TokensOf(records), now)];
            saved := saved + [records];
          } else {
            cache := cache[key := Entry([], now)];
          }
        case Aborted =>
          // Critical-error path: only a missing (or expired) entry is replaced.
          if !Live(cache, key, now) {
            cache := cache[key := Entry([], now)];
          }
      }
    }
  }

  /* ---------------------------------------------------------------------
   * Request headers
   * --------------------------------------------------------------------- */

  /** The headers of a proxied request carrying `token`. */
  function Headers(token: string): (h: map<string, string>)
    ensures "Authorization" in h && h["Authorization"] == "Bearer " + token
  {
    map[
      "User-Agent" := "Dalvik/2.1.0 (Linux; U; Android 9; ASUS_Z01QD Build/PI)",
      "Connection" := "Keep-Alive",
      "Accept-Encoding" := "gzip",
      "Authorization" := "Bearer " + token,
      "Content-Type" := "application/x-www-form-urlencoded",
      "X-Unity-Version" := "2018.4.11f1",
      "X-GA" := "v1 1",
      "ReleaseVersion" := "OB50"
    ]
  }

  /** Eight header fields, of which only Authorization depends on the token. */
  lemma HeadersFixedButAuthorization(t1: string, t2: string)
    ensures |Headers(t1)| == 8
    ensures Headers(t1).Keys == Headers(t2).Keys
    ensures forall k :: k in Headers(t1) && k != "Authorization" ==> Headers(t1)[k] == Headers(t2)[k]
  {
  }

  /* The Bearer credentials syntax of section 2.1 of RFC 6750:
     credentials = "Bearer" 1*SP b64token. */

  predicate IsB64Char(c: char)
  {
    ('A' <= c <= 'Z') || ('a' <= c <= 'z') || ('0' <= c <= '9')
    || c == '-' || c == '.' || c == '_' || c == '~' || c == '+' || c == '/'
  }

  /** b64token = 1*( ALPHA / DIGIT / "-" / "." / "_" / "~" / "+" / "/" ) *"=" */
  predicate IsB64Token(s: string)
  {
    |s| >= 1 && IsB64Char(s[0])
    && forall i :: 0 <= i < |s| ==>
         IsB64Char(s[i]) || (s[i] == '=' && forall j :: i <= j < |s| ==> s[j] == '=')
  }

  /** `s` without its leading spaces. */
  function DropSpaces(s: string): (r: string)
    ensures |r| <= |s| && r == s[|s| - |r|..]
    ensures forall i :: 0 <= i < |s| - |r| ==> s[i] == ' '
    ensures r == [] || r[0] != ' '
  {
    if |s| > 0 && s[0] == ' ' then DropSpaces(s[1..]) else s
  }

  /** The token an Authorization value carries, when it is well-formed Bearer credentials. */
  function BearerToken(value: string): Option<string>
  {
    if |value| > 6 && value[..6] == "Bearer" && value[6] == ' ' then
      var rest := DropSpaces(value[6..]);
      if IsB64Token(rest) then Some(rest) else None
    else None
  }

  /**
   * The Authorization header is well-formed Bearer credentials exactly when
   * the token, after any leading spaces, is a b64token; a receiver then reads
   * back that token.
   */
  lemma HeadersCarryBearer(token: string)
    ensures BearerToken(Headers(token)["Authorization"])
            == if IsB64Token(DropSpaces(token)) then Some(DropSpaces(token)) else None
  {
    var v := "Bearer " + token;
    assert v[..6] == "Bearer";
    assert v[6..] == [' '] + token;
    assert v[6..][1..] == token;
    assert DropSpaces(v[6..]) == DropSpaces(token);
  }

  /** A b64token survives the trip through the Authorization header unchanged. */
  lemma BearerRoundTrip(token: string)
    requires IsB64Token(token)
    ensures BearerToken(Headers(token)["Authorization"]) == Some(token)
  {
    HeadersCarryBearer(token);
  }
}
