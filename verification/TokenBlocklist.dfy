/**
 Logout by denylist: app/services/token_blocklist.py, on the shared cache, with the two places that
 consult it (`get_access_payload` in app/api/deps.py and `refresh` in app/services/auth_service.py).

 Times are wall-clock readings.  The cache reads the monotonic clock, which runs along with the wall
 clock at a constant distance `skew`.
 */
module TokenBlocklists {

  import opened Wrappers
  import opened Tokens
  import opened CacheKeys
  import Caches

  function RemainingTtl(p: Payload, now: real): int {
    if !p.exp.IntExpiry? then 0
    else if p.exp.seconds - now.Floor > 0 then p.exp.seconds - now.Floor
    else 0
  }

  predicate HasId(p: Payload) { p.jti.Some? && p.jti.value != "" }

  /** What `revoke` does to the cache, reading the wall clock for the ttl and then the cache's own. */
  function RevokeSteps(p: Payload, readAt: real, setAt: real, skew: real): seq<Caches.Step> {
    if HasId(p) && RemainingTtl(p, readAt) > 0
    then [Caches.Set(RevokedKey(p.jti.value), "1", RemainingTtl(p, readAt), setAt + skew)]
    else []
  }

  function CheckSteps(p: Payload, at: real, skew: real): seq<Caches.Step> {
    if HasId(p) then [Caches.Get(RevokedKey(p.jti.value), at + skew)] else []
  }

  predicate IsRevoked(s: Caches.Store, p: Payload, now: real, skew: real) {
    HasId(p) && Caches.Lookup(s, RevokedKey(p.jti.value), now + skew).Some?
  }

  // ---------------------------------------------------------------------------------------------
  // Runs of everything that shares the cache
  // ---------------------------------------------------------------------------------------------

  datatype Event =
    | Revoke(payload: Payload, readAt: real, at: real)
    | Check(payload: Payload, at: real)
    | HttpRead(provider: string, digest: Digest, at: real)
    | HttpWrite(provider: string, digest: Digest, text: string, ttl: int, at: real)

  function StepsOf(e: Event, skew: real): seq<Caches.Step> {
    match e
    case Revoke(p, readAt, at) => RevokeSteps(p, readAt, at, skew)
    case Check(p, at) => CheckSteps(p, at, skew)
    case HttpRead(provider, digest, at) => [Caches.Get(HttpKey(provider, digest), at + skew)]
    case HttpWrite(provider, digest, text, ttl, at) => [Caches.Set(HttpKey(provider, digest), text, ttl, at + skew)]
  }

  function CacheLog(log: seq<Event>, skew: real): seq<Caches.Step> {
    if log == [] then [] else CacheLog(log[..|log| - 1], skew) + StepsOf(log[|log| - 1], skew)
  }

  function Store(log: seq<Event>, skew: real): Caches.Store {
    Caches.Run(CacheLog(log, skew))
  }

  predicate Chronological(log: seq<Event>) {
    && (forall i, j :: 0 <= i < j < |log| ==> log[i].at <= log[j].at)
    && (forall i :: 0 <= i < |log| && log[i].Revoke? ==> log[i].readAt <= log[i].at)
  }

  predicate NotBefore(log: seq<Event>, now: real) {
    forall i :: 0 <= i < |log| ==> log[i].at <= now
  }

  /** Identifiers are fresh per token: whoever is revoked under this one carries this expiry. */
  predicate OwnsId(log: seq<Event>, p: Payload) {
    forall i :: 0 <= i < |log| && log[i].Revoke? && log[i].payload.jti == p.jti ==> log[i].payload.exp == p.exp
  }

  /** The claims that make a token revocable; every token minted by `CreateToken` with a non-empty
      identifier has them. */
  predicate Revocable(p: Payload) { HasId(p) && p.exp.IntExpiry? }

  predicate RevokedIn(log: seq<Event>, p: Payload) {
    exists i :: 0 <= i < |log| && log[i].Revoke? && log[i].payload.jti == p.jti
  }

  predicate RevokesNow(e: Event, p: Payload) {
    e.Revoke? && e.payload.jti == p.jti && RemainingTtl(e.payload, e.readAt) > 0
  }

  /** When the denylist entry of the last effective revocation lapses, as a wall-clock time. */
  function EntryEnd(log: seq<Event>, p: Payload): Option<real> {
    if log == [] then None
    else
      var last := log[|log| - 1];
      if RevokesNow(last, p)
      then Some(last.at + RemainingTtl(last.payload, last.readAt) as real)
      else EntryEnd(log[..|log| - 1], p)
  }

  lemma {:induction false} CacheLogIsChronological(log: seq<Event>, skew: real, now: real)
    requires Chronological(log) && NotBefore(log, now)
    ensures Caches.Chronological(CacheLog(log, skew)) && Caches.NotBefore(CacheLog(log, skew), now + skew)
  {
    if log != [] {
      CacheLogIsChronological(log[..|log| - 1], skew, log[|log| - 1].at);
    }
  }

  /** No other revocation and no cached response ever touches the record of an identifier. */
  lemma OnlyOwnRevocationsTouch(e: Event, skew: real, p: Payload)
    requires HasId(p)
    ensures
      var steps := StepsOf(e, skew);
      && |steps| <= 1
      && (RevokesNow(e, p) ==>
            steps == [Caches.Set(RevokedKey(p.jti.value), "1", RemainingTtl(e.payload, e.readAt), e.at + skew)])
      && (!RevokesNow(e, p) && steps != [] ==> !Caches.Touches(steps[0], RevokedKey(p.jti.value)))
  {
    match e
    case Revoke(q, _, _) => if HasId(q) { RevokedKeysDiffer(p.jti.value, q.jti.value); }
    case Check(_, _) =>
    case HttpRead(_, _, _) =>
    case HttpWrite(provider, digest, _, _, _) => KeySpaces(p.jti.value, provider, digest);
  }

  /** So the cache's record under the identifier is that of the last effective revocation. */
  lemma {:induction false} RecordOfRevocation(log: seq<Event>, skew: real, p: Payload)
    requires HasId(p)
    ensures Caches.Written(CacheLog(log, skew), RevokedKey(p.jti.value)) ==
            match EntryEnd(log, p)
            case Some(end) => Some(Caches.Entry("1", end + skew))
            case None => None
  {
    hide RemainingTtl, RevokedKey, HttpKey;
    if log != [] {
      var prefix, last := log[..|log| - 1], log[|log| - 1];
      assert CacheLog(log, skew) == CacheLog(prefix, skew) + StepsOf(last, skew);
      assert EntryEnd(log, p) == if RevokesNow(last, p)
                                 then Some(last.at + RemainingTtl(last.payload, last.readAt) as real)
                                 else EntryEnd(prefix, p);
      hide CacheLog, StepsOf, RevokesNow, EntryEnd, Caches.Written;
      RecordOfRevocation(prefix, skew, p);
      OnlyOwnRevocationsTouch(last, skew, p);
      Caches.WrittenAfter(CacheLog(prefix, skew), StepsOf(last, skew), RevokedKey(p.jti.value));
    }
  }

  /** The entry outlives the token, because the ttl is floored from an earlier clock reading than the one
      it is added to, but by less than a second more than the readings are apart. */
  lemma {:induction false} EntryOutlivesToken(log: seq<Event>, p: Payload)
    requires Chronological(log) && Revocable(p) && OwnsId(log, p)
    ensures EntryEnd(log, p).Some? ==> EntryEnd(log, p).value >= p.exp.seconds as real && RevokedIn(log, p)
    ensures EntryEnd(log, p).Some? ==>
              exists i :: 0 <= i < |log| && log[i].Revoke? && log[i].payload.jti == p.jti
                          && EntryEnd(log, p).value < p.exp.seconds as real + 1.0 + (log[i].at - log[i].readAt)
    ensures RevokedIn(log, p) && EntryEnd(log, p).None? ==> log[|log| - 1].at >= p.exp.seconds as real
  {
    if log != [] {
      var prefix, last := log[..|log| - 1], log[|log| - 1];
      EntryOutlivesToken(prefix, p);
      if RevokedIn(prefix, p) {
        var i :| 0 <= i < |prefix| && prefix[i].Revoke? && prefix[i].payload.jti == p.jti;
        assert log[i] == prefix[i];
      }
      if last.Revoke? && last.payload.jti == p.jti {
        assert log[|log| - 1].payload.exp == p.exp;
      }
      if EntryEnd(prefix, p).Some? {
        var i :| 0 <= i < |prefix| && prefix[i].Revoke? && prefix[i].payload.jti == p.jti
                 && EntryEnd(prefix, p).value < p.exp.seconds as real + 1.0 + (prefix[i].at - prefix[i].readAt);
        assert log[i] == prefix[i];
      }
    }
  }

  /** The timed denylist is the untimed set of revoked identifiers, as long as the token lives. */
  lemma DenylistIsASet(log: seq<Event>, skew: real, p: Payload, now: real)
    requires Chronological(log) && NotBefore(log, now) && Revocable(p) && OwnsId(log, p)
    ensures IsRevoked(Store(log, skew), p, now, skew) <==> EntryEnd(log, p).Some? && now < EntryEnd(log, p).value
    ensures now < p.exp.seconds as real ==> (IsRevoked(Store(log, skew), p, now, skew) <==> RevokedIn(log, p))
    ensures IsRevoked(Store(log, skew), p, now, skew) ==> RevokedIn(log, p)
  {
    CacheLogIsChronological(log, skew, now);
    Caches.LazyExpiryIsInvisible(CacheLog(log, skew), RevokedKey(p.jti.value), now + skew);
    RecordOfRevocation(log, skew, p);
    EntryOutlivesToken(log, p);
  }

  /** Without an integer expiry no revocation ever writes an entry. */
  lemma {:induction false} NoEntryWithoutExpiry(log: seq<Event>, p: Payload)
    requires OwnsId(log, p) && !p.exp.IntExpiry?
    ensures EntryEnd(log, p).None?
  {
    if log != [] {
      NoEntryWithoutExpiry(log[..|log| - 1], p);
    }
  }

  lemma UnrevocableIsNeverListed(log: seq<Event>, skew: real, p: Payload, now: real)
    requires Chronological(log) && NotBefore(log, now) && OwnsId(log, p) && !Revocable(p)
    ensures !IsRevoked(Store(log, skew), p, now, skew)
  {
    if HasId(p) {
      NoEntryWithoutExpiry(log, p);
      CacheLogIsChronological(log, skew, now);
      Caches.LazyExpiryIsInvisible(CacheLog(log, skew), RevokedKey(p.jti.value), now + skew);
      RecordOfRevocation(log, skew, p);
    }
  }

  // ---------------------------------------------------------------------------------------------
  // The two gates
  // ---------------------------------------------------------------------------------------------

  /** `get_access_payload` and the first half of `refresh`: decode, then ask the denylist. */
  function Gate(t: Token, expected: TokenType, s: Caches.Store, decodedAt: real, askedAt: real,
                skew: real): Result<Payload> {
    match Decode(t, expected, decodedAt)
    case Err(e) => Err(e)
    case Ok(p) => if IsRevoked(s, p, askedAt, skew) then Err(Revoked) else Ok(p)
  }

  function GetAccessPayload(t: Token, s: Caches.Store, decodedAt: real, askedAt: real, skew: real): Result<Payload> {
    Gate(t, Access, s, decodedAt, askedAt, skew)
  }

  /** `accountActive` is what the user repository says about the subject afterwards. */
  function RefreshTokens(t: Token, s: Caches.Store, decodedAt: real, askedAt: real, skew: real,
                         accountActive: bool): Result<Payload> {
    match Gate(t, Refresh, s, decodedAt, askedAt, skew)
    case Err(e) => Err(e)
    case Ok(p) => if accountActive then Ok(p) else Err(NoAccount)
  }

  /** The attempt decodes the token before it expires and asks the denylist afterwards. */
  predicate Straddles(p: Payload, decodedAt: real, askedAt: real) {
    !ExpiredAt(p, decodedAt) && ExpiredAt(p, askedAt)
  }

  /** An authentic token of this kind that names a subject and is neither issued in the future nor expired. */
  ghost predicate Presentable(t: Token, kind: TokenType, at: real) {
    && t.authentic && t.payload.kind == Some(kind) && t.payload.subject.Some?
    && (t.payload.iat.Some? ==> t.payload.iat.value as real <= at)
    && (t.payload.exp != NoExpiry ==> at < t.payload.exp.seconds as real)
  }

  /** The denylist has nothing against the payload: it cannot be revoked, was never revoked, or its entry
      has lapsed. */
  ghost predicate Unlisted(log: seq<Event>, p: Payload, at: real) {
    || !Revocable(p)
    || !RevokedIn(log, p)
    || (EntryEnd(log, p).Some? ==> EntryEnd(log, p).value <= at)
  }

  /** Exactly which attempts a gate lets through, over every run of the shared cache: those whose token is
      presentable when it is decoded and unlisted when the denylist is read. */
  lemma GateIsExact(log: seq<Event>, skew: real, t: Token, expected: TokenType, decodedAt: real, askedAt: real)
    requires Chronological(log) && NotBefore(log, askedAt) && decodedAt <= askedAt
    requires OwnsId(log, t.payload)
    ensures
      var r := Gate(t, expected, Store(log, skew), decodedAt, askedAt, skew);
      && (r.Ok? <==> Presentable(t, expected, decodedAt) && Unlisted(log, t.payload, askedAt))
      && (r.Ok? ==> r.value == t.payload)
  {
    if Revocable(t.payload) {
      DenylistIsASet(log, skew, t.payload, askedAt);
      EntryOutlivesToken(log, t.payload);
    } else {
      UnrevocableIsNeverListed(log, skew, t.payload, askedAt);
    }
    hide Revocable, RevokedIn, EntryEnd, IsRevoked, OwnsId, Chronological, NotBefore, Store;
  }

  /** `get_access_payload` hands on the payload of a presentable, unlisted access token, and nothing else. */
  lemma AccessGateIsExact(log: seq<Event>, skew: real, t: Token, decodedAt: real, askedAt: real)
    requires Chronological(log) && NotBefore(log, askedAt) && decodedAt <= askedAt && OwnsId(log, t.payload)
    ensures
      var r := GetAccessPayload(t, Store(log, skew), decodedAt, askedAt, skew);
      && (r.Ok? <==> Presentable(t, Access, decodedAt) && Unlisted(log, t.payload, askedAt))
      && (r.Ok? ==> r.value == t.payload)
  {
    GateIsExact(log, skew, t, Access, decodedAt, askedAt);
  }

  /** `refresh` succeeds with a presentable, unlisted refresh token of an active account, and not otherwise. */
  lemma RefreshIsExact(log: seq<Event>, skew: real, t: Token, decodedAt: real, askedAt: real, accountActive: bool)
    requires Chronological(log) && NotBefore(log, askedAt) && decodedAt <= askedAt && OwnsId(log, t.payload)
    ensures
      var r := RefreshTokens(t, Store(log, skew), decodedAt, askedAt, skew, accountActive);
      && (r.Ok? <==>
            accountActive && Presentable(t, Refresh, decodedAt) && Unlisted(log, t.payload, askedAt))
      && (r.Ok? ==> r.value == t.payload)
  {
    GateIsExact(log, skew, t, Refresh, decodedAt, askedAt);
  }

  /** Revocation leaves no gap for any attempt that does not straddle the expiry of the token: an
      attempt that decodes before it and asks the denylist after the entry has lapsed gets through. */
  lemma RevocationHolds(log: seq<Event>, skew: real, t: Token, expected: TokenType, decodedAt: real, askedAt: real)
    requires Chronological(log) && NotBefore(log, askedAt) && decodedAt <= askedAt
    requires Revocable(t.payload) && OwnsId(log, t.payload) && RevokedIn(log, t.payload)
    requires !Straddles(t.payload, decodedAt, askedAt)
    ensures Gate(t, expected, Store(log, skew), decodedAt, askedAt, skew).Err?
  {
    DenylistIsASet(log, skew, t.payload, askedAt);
  }

  /** The straddling attempt exists: revoked at 50, decoded at 99.5, asked at 100, expiry 100. */
  lemma StraddlingAttemptPasses()
    ensures
      var p := Payload(Some("user"), Some(Access), Some("id"), Some(0), IntExpiry(100));
      var log := [Revoke(p, 50.0, 50.0)];
      && Chronological(log) && NotBefore(log, 100.0) && OwnsId(log, p) && RevokedIn(log, p)
      && GetAccessPayload(Token(true, p), Store(log, 0.0), 99.5, 100.0, 0.0) == Ok(p)
  {
    var p := Payload(Some("user"), Some(Access), Some("id"), Some(0), IntExpiry(100));
    var log := [Revoke(p, 50.0, 50.0)];
    assert log[..|log| - 1] == [];
    assert log[0].Revoke? && log[0].payload.jti == p.jti;
    GateIsExact(log, 0.0, Token(true, p), Access, 99.5, 100.0);
  }

  /** A token without an expiry is revoked in vain: revoked at 50, let through at 60. */
  lemma UnexpiringTokenPasses()
    ensures
      var p := Payload(Some("user"), Some(Access), Some("id"), Some(0), NoExpiry);
      var log := [Revoke(p, 50.0, 50.0)];
      && Chronological(log) && NotBefore(log, 60.0) && RevokedIn(log, p)
      && GetAccessPayload(Token(true, p), Store(log, 0.0), 60.0, 60.0, 0.0) == Ok(p)
  {
    var p := Payload(Some("user"), Some(Access), Some("id"), Some(0), NoExpiry);
    var log := [Revoke(p, 50.0, 50.0)];
    assert log[0].Revoke? && log[0].payload.jti == p.jti;
    GateIsExact(log, 0.0, Token(true, p), Access, 60.0, 60.0);
  }

  /** Over every run, and wherever the clock readings of the revocation and the later check fall, a
      revoked token that is still alive is on the denylist exactly when it carries an identifier and
      an integer expiry; of any other payload `revoke` writes nothing. */
  lemma RevocationTakesEffectIff(log: seq<Event>, skew: real, p: Payload, asked: real)
    requires Chronological(log) && NotBefore(log, asked) && OwnsId(log, p) && RevokedIn(log, p)
    requires !ExpiredAt(p, asked)
    ensures IsRevoked(Store(log, skew), p, asked, skew) <==>
            p.jti.Some? && p.jti.value != "" && p.exp.IntExpiry?
  {
    if Revocable(p) {
      DenylistIsASet(log, skew, p, asked);
    } else {
      UnrevocableIsNeverListed(log, skew, p, asked);
    }
  }

  // ---------------------------------------------------------------------------------------------
  // Logout
  // ---------------------------------------------------------------------------------------------

  /** The revocations of one `logout`: the access payload first, then the refresh token if one was
      given and still decodes at `decodedAt`.  Each has its two clock readings. */
  function LogoutEvents(access: Payload, refresh: Option<Token>, decodedAt: real,
                        r1: real, s1: real, r2: real, s2: real): seq<Event> {
    [Revoke(access, r1, s1)]
    + if refresh.Some? && Decode(refresh.value, Refresh, decodedAt).Ok?
      then [Revoke(refresh.value.payload, r2, s2)] else []
  }

  /** After a logout, whatever else happens in the shared cache in between or afterwards, neither
      token passes its gate again in an attempt that does not straddle the expiry of that token.  This
      includes the attempt that decoded its token before the logout and asks the denylist after it.  A
      refresh token that does not decode at the logout is left alone, and is dead for good unless it was
      refused for being issued in the future. */
  lemma LogoutEndsTheSession(
      log: seq<Event>, skew: real, access: Token, refresh: Option<Token>,
      loggedOutAt: real, r1: real, s1: real, r2: real, s2: real,
      decodedAt: real, askedAt: real, accountActive: bool)
    requires Chronological(log) && NotBefore(log, askedAt) && loggedOutAt <= askedAt && decodedAt <= askedAt
    requires forall e :: e in LogoutEvents(access.payload, refresh, loggedOutAt, r1, s1, r2, s2) ==> e in log
    requires Revocable(access.payload) && OwnsId(log, access.payload)
    requires refresh.Some? && Decode(refresh.value, Refresh, loggedOutAt).Ok? ==>
               Revocable(refresh.value.payload) && OwnsId(log, refresh.value.payload)
    ensures !Straddles(access.payload, decodedAt, askedAt) ==>
              GetAccessPayload(access, Store(log, skew), decodedAt, askedAt, skew).Err?
    ensures refresh.Some? && !Straddles(refresh.value.payload, decodedAt, askedAt)
            && !ImmatureAt(refresh.value.payload, loggedOutAt) ==>
              RefreshTokens(refresh.value, Store(log, skew), decodedAt, askedAt, skew, accountActive).Err?
  {
    var events := LogoutEvents(access.payload, refresh, loggedOutAt, r1, s1, r2, s2);
    assert events[0] in log;
    if !Straddles(access.payload, decodedAt, askedAt) {
      RevocationHolds(log, skew, access, Access, decodedAt, askedAt);
    }
    if refresh.Some? && !Straddles(refresh.value.payload, decodedAt, askedAt)
       && !ImmatureAt(refresh.value.payload, loggedOutAt) {
      if Decode(refresh.value, Refresh, loggedOutAt).Ok? {
        assert events[1] in log;
        RevocationHolds(log, skew, refresh.value, Refresh, decodedAt, askedAt);
      } else {
        RefusalIsFinal(refresh.value, Refresh, loggedOutAt, askedAt);
      }
    }
  }

  /** That exception exists: a refresh token issued at 200 is presented to a logout at 100, which leaves it
      alone, and is accepted at 250. */
  lemma EarlyTokenSurvivesLogout()
    ensures
      var access := Payload(Some("user"), Some(Access), Some("a"), Some(0), IntExpiry(150));
      var refresh := Token(true, Payload(Some("user"), Some(Refresh), Some("r"), Some(200), IntExpiry(300)));
      var log := LogoutEvents(access, Some(refresh), 100.0, 100.0, 100.0, 100.0, 100.0);
      && Chronological(log) && NotBefore(log, 250.0) && OwnsId(log, refresh.payload)
      && RefreshTokens(refresh, Store(log, 0.0), 250.0, 250.0, 0.0, true) == Ok(refresh.payload)
  {
    var access := Payload(Some("user"), Some(Access), Some("a"), Some(0), IntExpiry(150));
    var refresh := Token(true, Payload(Some("user"), Some(Refresh), Some("r"), Some(200), IntExpiry(300)));
    var log := LogoutEvents(access, Some(refresh), 100.0, 100.0, 100.0, 100.0, 100.0);
    assert log == [Revoke(access, 100.0, 100.0)];
    GateIsExact(log, 0.0, refresh, Refresh, 250.0, 250.0);
  }

  // ---------------------------------------------------------------------------------------------
  // The object
  // ---------------------------------------------------------------------------------------------

  class TokenBlocklist {
    const cache: Caches.InMemoryCache

    constructor (cache: Caches.InMemoryCache)
      ensures this.cache == cache
    {
      this.cache := cache;
    }

    method RevokeToken(p: Payload, readAt: real, setAt: real, skew: real)
      requires cache.Valid() && Caches.NotBefore(cache.log, setAt + skew)
      modifies cache
      ensures cache.Valid() && cache.log == old(cache.log) + RevokeSteps(p, readAt, setAt, skew)
      ensures Caches.NotBefore(cache.log, setAt + skew)
    {
      ghost var steps := RevokeSteps(p, readAt, setAt, skew);
      if HasId(p) {
        var ttl := RemainingTtl(p, readAt);
        if ttl > 0 {
          var key := RevokedKey(p.jti.value);
          assert steps == [Caches.Set(key, "1", ttl, setAt + skew)];
          cache.SetValue(key, "1", ttl, setAt + skew);
          return;
        }
      }
      assert steps == [];
    }

    method CheckToken(p: Payload, now: real, skew: real) returns (revoked: bool)
      requires cache.Valid() && Caches.NotBefore(cache.log, now + skew)
      modifies cache
      ensures cache.Valid() && cache.log == old(cache.log) + CheckSteps(p, now, skew)
      ensures revoked <==> IsRevoked(Caches.Run(old(cache.log)), p, now, skew)
    {
      hide Caches.Run, Caches.Lookup, Caches.Reference, Caches.Chronological;
      if !HasId(p) {
        return false;
      }
      Caches.LazyExpiryIsInvisible(cache.log, RevokedKey(p.jti.value), now + skew);
      var value := cache.GetValue(RevokedKey(p.jti.value), now + skew);
      return value.Some?;
    }
  }

  lemma CacheLogOf(first: Event, second: seq<Event>, skew: real)
    requires |second| <= 1
    ensures CacheLog([first] + second, skew)
            == StepsOf(first, skew) + if second == [] then [] else StepsOf(second[0], skew)
  {
    assert [first][..0] == [];
    assert CacheLog([first], skew) == StepsOf(first, skew);
    if second == [] {
      assert [first] + second == [first];
    } else {
      assert ([first] + second)[..1] == [first];
    }
  }

  class AuthService {
    const blocklist: TokenBlocklist

    constructor (blocklist: TokenBlocklist)
      ensures this.blocklist == blocklist
    {
      this.blocklist := blocklist;
    }

    /** One `logout` with nothing else touching the cache in between. */
    method Logout(access: Payload, refresh: Option<Token>, decodedAt: real, r1: real, s1: real, r2: real, s2: real,
                  skew: real)
      requires blocklist.cache.Valid() && Caches.NotBefore(blocklist.cache.log, s1 + skew) && s1 <= s2
      modifies blocklist.cache
      ensures blocklist.cache.Valid()
      ensures blocklist.cache.log ==
              old(blocklist.cache.log) + CacheLog(LogoutEvents(access, refresh, decodedAt, r1, s1, r2, s2), skew)
    {
      hide CacheLog, RevokeSteps, Caches.Run, Caches.Chronological;
      ghost var events := LogoutEvents(access, refresh, decodedAt, r1, s1, r2, s2);
      CacheLogOf(events[0], events[1..], skew);
      assert events == [events[0]] + events[1..];
      blocklist.RevokeToken(access, r1, s1, skew);
      if refresh.Some? {
        var decoded := Decode(refresh.value, Refresh, decodedAt);
        if decoded.Err? {
          return;
        }
        blocklist.RevokeToken(decoded.value, r2, s2, skew);
      }
    }
  }
}
