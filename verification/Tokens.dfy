/**
 TokensService: signed, expiring, single-purpose tokens and their blacklist in Redis. Instants are
 milliseconds of one clock; token expiry and blacklist TTL count whole seconds. Signing is an
 oracle: a token shows the secret it was signed with and its claims.
 */
module Tokens {
  import opened Prelude

  type Millis = nat

  // ---------------------------------------------------------------- Redis

  /** When a key goes away. The blacklist only ever stores '1', which is truthy. */
  datatype Expiry = Never | At(instant: int)

  type Store = map<string, Expiry>

  datatype RedisError = InvalidExpireTime

  /** `store`: a TTL of 0 is falsy and means no expiry; Redis refuses a negative one. */
  function StoreKey(db: Store, key: string, ttl: Option<int>, now: Millis): Result<Store, RedisError> {
    if ttl.None? || ttl.value == 0 then Ok(db[key := Never])
    else if ttl.value < 0 then Err(InvalidExpireTime)
    else Ok(db[key := At(now + 1000 * ttl.value)])
  }

  /** A key is dropped once the clock is past its instant; at the instant itself it is still read. */
  predicate Present(db: Store, key: string, t: Millis) {
    key in db && (db[key].At? ==> t <= db[key].instant)
  }

  /** A token without `exp` gives NaN, here None, which is as falsy as 0. */
  function CalculateTokenTtlSeconds(exp: Option<int>, now: Millis): Option<int> {
    if exp.Some? then Some(exp.value - now / 1000) else None
  }

  function BlacklistKey(jti: string): string {
    "blacklist_token:" + jti
  }

  function Blacklist(db: Store, jti: string, exp: Option<int>, now: Millis): Result<Store, RedisError> {
    StoreKey(db, BlacklistKey(jti), CalculateTokenTtlSeconds(exp, now), now)
  }

  /** The store after a call, failed or not. */
  function Blacklisted(db: Store, jti: string, exp: Option<int>, now: Millis): Store {
    match Blacklist(db, jti, exp, now)
    case Ok(db') => db'
    case Err(_) => db
  }

  // ---------------------------------------------------------------- tokens

  /** `texts` are the string claims: jti, purpose and what the caller adds. */
  datatype Claims = Claims(texts: map<string, string>, iat: int, exp: Option<int>)

  datatype Token = Malformed | Signed(secret: string, claims: Claims)

  datatype Options = Options(purpose: string, secret: string, expiresIn: nat, dataInToken: seq<string>)

  datatype VerifyError = InvalidToken | InvalidDataInToken | InvalidTokenPurpose | TokenIsBlacklisted

  function KeysOf(claims: Claims): set<string> {
    claims.texts.Keys + {"iat"} + if claims.exp.Some? then {"exp"} else {}
  }

  predicate HasClaim(claims: Claims, k: string) {
    k in claims.texts || k == "iat" || (k == "exp" && claims.exp.Some?)
  }

  /** What the constructor adds to the expected data. */
  function Expected(opts: Options): seq<string> {
    opts.dataInToken + ["purpose", "jti"]
  }

  predicate JwtValid(opts: Options, token: Token, t: Millis) {
    token.Signed? && token.secret == opts.secret && (token.claims.exp.Some? ==> t / 1000 < token.claims.exp.value)
  }

  predicate HasData(opts: Options, claims: Claims) {
    forall k :: k in Expected(opts) ==> k in KeysOf(claims)
  }

  predicate HasPurpose(opts: Options, claims: Claims) {
    "purpose" in claims.texts && claims.texts["purpose"] == opts.purpose
  }

  /** The signature and expiry are checked at `signedAt`, the blacklist is read at `readAt`. */
  function Verify(opts: Options, db: Store, token: Token, signedAt: Millis, readAt: Millis):
      Result<Claims, VerifyError> {
    if !JwtValid(opts, token, signedAt) then Err(InvalidToken)
    else if !HasData(opts, token.claims) then Err(InvalidDataInToken)
    else if !HasPurpose(opts, token.claims) then Err(InvalidTokenPurpose)
    else
      assert "jti" in Expected(opts);
      if "jti" !in token.claims.texts || Present(db, BlacklistKey(token.claims.texts["jti"]), readAt)
      then Err(TokenIsBlacklisted) else Ok(token.claims)
  }

  /** A token this service would take if time and the blacklist let it. */
  predicate Genuine(opts: Options, token: Token, jti: string, exp: int) {
    && token.Signed? && token.secret == opts.secret && token.claims.exp == Some(exp)
    && HasData(opts, token.claims) && HasPurpose(opts, token.claims)
    && "jti" in token.claims.texts && token.claims.texts["jti"] == jti
  }

  /** A token by that id and expiry, whoever signed it. */
  predicate Names(token: Token, jti: string, exp: Option<int>) {
    token.Signed? ==> token.claims.exp == exp && "jti" in token.claims.texts && token.claims.texts["jti"] == jti
  }

  // ------------------------------------------------- expiry against the TTL

  lemma SecondsOf(t: Millis, exp: int)
    ensures t / 1000 < exp <==> t < 1000 * exp
  {
  }

  /** The entry outlives the token: it goes less than one second after `exp`, or never. */
  lemma EntryOutlivesToken(db: Store, jti: string, exp: int, now: Millis)
    ensures Blacklist(db, jti, Some(exp), now).Err? <==> now >= 1000 * exp + 1000
    ensures Blacklist(db, jti, Some(exp), now).Ok? ==>
      var entry := Blacklist(db, jti, Some(exp), now).value[BlacklistKey(jti)];
      if 1000 * exp <= now then entry == Never
      else entry == At(1000 * exp + now % 1000) && 1000 * exp <= entry.instant < 1000 * exp + 1000
  {
    assert now == 1000 * (now / 1000) + now % 1000;
  }

  /** The entry, if there is one to speak of, lasts at least until the token expires. */
  predicate Covers(db: Store, jti: string, exp: Option<int>) {
    var key := BlacklistKey(jti);
    key in db && (db[key].At? ==> exp.Some? && 1000 * exp.value <= db[key].instant)
  }

  lemma CallCovers(db: Store, jti: string, exp: Option<int>, now: Millis)
    ensures Blacklist(db, jti, exp, now).Ok? ==> Covers(Blacklisted(db, jti, exp, now), jti, exp)
  {
    if exp.Some? { EntryOutlivesToken(db, jti, exp.value, now); }
  }

  /** A call stores one key, for ever if the token has no expiry, and touches no other. */
  lemma BlacklistsOneKey(db: Store, jti: string, exp: Option<int>, now: Millis)
    ensures forall k :: k != BlacklistKey(jti) ==>
      (k in Blacklisted(db, jti, exp, now) <==> k in db) && (k in db ==> Blacklisted(db, jti, exp, now)[k] == db[k])
    ensures exp.None? ==> Blacklisted(db, jti, exp, now) == db[BlacklistKey(jti) := Never]
    ensures Blacklist(db, jti, exp, now).Err? ==> Blacklisted(db, jti, exp, now) == db
  {
  }

  datatype Call = Call(jti: string, exp: Option<int>, now: Millis)

  function After(db: Store, calls: seq<Call>): Store
    decreases |calls|
  {
    if calls == [] then db else After(Blacklisted(db, calls[0].jti, calls[0].exp, calls[0].now), calls[1..])
  }

  lemma KeysDiffer(a: string, b: string)
    ensures BlacklistKey(a) == BlacklistKey(b) <==> a == b
  {
    assert BlacklistKey(a)[|"blacklist_token:"|..] == a && BlacklistKey(b)[|"blacklist_token:"|..] == b;
  }

  lemma {:induction false} CoverStays(db: Store, jti: string, exp: Option<int>, calls: seq<Call>)
    requires Covers(db, jti, exp)
    requires forall c :: c in calls && c.jti == jti ==> c.exp == exp
    ensures Covers(After(db, calls), jti, exp)
    decreases |calls|
  {
    if calls != [] {
      var c := calls[0];
      KeysDiffer(c.jti, jti);
      CallCovers(db, c.jti, c.exp, c.now);
      CoverStays(Blacklisted(db, c.jti, c.exp, c.now), jti, exp, calls[1..]);
    }
  }

  /**
   From the moment `blacklist` was called, whether Redis took the entry or refused it, and whatever
   other tokens are blacklisted afterwards, the token is rejected at every later instant.
   */
  lemma BlacklistedForGood(opts: Options, db: Store, jti: string, exp: Option<int>, now: Millis, calls: seq<Call>,
                           token: Token, t: Millis)
    requires Names(token, jti, exp) && now <= t
    requires forall c :: c in calls && c.jti == jti ==> c.exp == exp
    ensures Verify(opts, After(Blacklisted(db, jti, exp, now), calls), token, t, t).Err?
  {
    CallCovers(db, jti, exp, now);
    if exp.Some? {
      EntryOutlivesToken(db, jti, exp.value, now);
      SecondsOf(t, exp.value);
    }
    if Blacklist(db, jti, exp, now).Ok? {
      CoverStays(Blacklisted(db, jti, exp, now), jti, exp, calls);
    }
  }

  /**
   `verify` reads the clock for the signature before it reads Redis. A token blacklisted at `now`
   still passes exactly when the first read is before `exp` and the second after the entry is gone,
   which takes two milliseconds at the least.
   */
  lemma StraddlesExpiryIff(opts: Options, db: Store, token: Token, jti: string, exp: int, now: Millis,
                           signedAt: Millis, readAt: Millis)
    requires Genuine(opts, token, jti, exp) && now <= signedAt <= readAt
    ensures Verify(opts, Blacklisted(db, jti, Some(exp), now), token, signedAt, readAt).Ok?
      <==> signedAt < 1000 * exp && 1000 * exp + now % 1000 < readAt
    ensures Verify(opts, Blacklisted(db, jti, Some(exp), now), token, signedAt, readAt).Ok? ==>
      readAt - signedAt >= 2 + now % 1000
  {
    EntryOutlivesToken(db, jti, exp, now);
    SecondsOf(signedAt, exp);
  }

  /** Two milliseconds are enough when the token was blacklisted on the full second. */
  lemma BlacklistedTokenCanPass()
    ensures exists opts, token, jti, exp, now: Millis, signedAt: Millis, readAt: Millis ::
      (&& Genuine(opts, token, jti, exp) && now <= signedAt && readAt == signedAt + 2
       && Verify(opts, Blacklisted(map[], jti, Some(exp), now), token, signedAt, readAt).Ok?)
  {
    var opts := Options("ACCOUNT_DELETION", "secret", 60, []);
    var token := Signed("secret", Claims(map["purpose" := "ACCOUNT_DELETION", "jti" := "j"], 0, Some(60)));
    assert Genuine(opts, token, "j", 60);
    StraddlesExpiryIff(opts, map[], token, "j", 60, 1000, 59999, 60001);
    assert Verify(opts, Blacklisted(map[], "j", Some(60), 1000), token, 59999, 60001).Ok?;
  }

  /** The store as a reader at instant t finds it when the token is blacklisted at `now`. */
  function SeenAt(db: Store, jti: string, exp: int, now: Millis, t: Millis): Store {
    if t < now then db else Blacklisted(db, jti, Some(exp), now)
  }

  /** A second use of a token succeeds exactly when it is verified before the first use is stored, and before expiry. */
  lemma SecondUseIff(opts: Options, db: Store, token: Token, jti: string, exp: int, now: Millis, t: Millis)
    requires Genuine(opts, token, jti, exp) && !Present(db, BlacklistKey(jti), t)
    ensures Verify(opts, SeenAt(db, jti, exp, now, t), token, t, t).Ok? <==> t < now && t < 1000 * exp
  {
    SecondsOf(t, exp);
    if now <= t {
      StraddlesExpiryIff(opts, db, token, jti, exp, now, t, t);
    }
  }

  // --------------------------------------------------- generate and verify

  datatype SignError = BadPayload

  /** `{ purpose, jti, ...payload }`: the payload wins. The signer dates the token and adds its expiry. */
  function Generate(opts: Options, payload: map<string, string>, jti: string, now: Millis): Result<Token, SignError> {
    if "exp" in payload || "iat" in payload then Err(BadPayload)
    else
      var texts := map["purpose" := opts.purpose, "jti" := jti] + payload;
      Ok(Signed(opts.secret, Claims(texts, now / 1000, Some(now / 1000 + opts.expiresIn))))
  }

  /**
   A generated token verifies, giving back its claims, exactly when the payload holds the expected
   data and names no other purpose, its lifetime is not over, and its id is not blacklisted.
   */
  lemma GeneratedVerifiesIff(opts: Options, db: Store, payload: map<string, string>, jti: string, now: Millis,
                             t: Millis)
    requires Generate(opts, payload, jti, now).Ok? && now <= t
    ensures var token := Generate(opts, payload, jti, now).value;
      var id := if "jti" in payload then payload["jti"] else jti;
      && ClaimsFor(token.claims, opts, payload, jti, now)
      && (Verify(opts, db, token, t, t) == Ok(token.claims)) == (
           && (forall k :: k in opts.dataInToken ==> k in payload || k in {"purpose", "jti", "iat", "exp"})
           && ("purpose" in payload ==> payload["purpose"] == opts.purpose)
           && t < 1000 * (now / 1000 + opts.expiresIn)
           && !Present(db, BlacklistKey(id), t))
  {
    var claims := Generate(opts, payload, jti, now).value.claims;
    SecondsOf(t, now / 1000 + opts.expiresIn);
    assert KeysOf(claims) == payload.Keys + {"purpose", "jti", "iat", "exp"};
    HasExpected(opts, claims);
  }

  /** Claims as they were asked for: the caller's values win, and the signer adds the two dates. */
  ghost predicate ClaimsFor(claims: Claims, opts: Options, payload: map<string, string>, jti: string, now: Millis) {
    && claims.texts.Keys == payload.Keys + {"purpose", "jti"}
    && (forall k :: k in payload ==> k in claims.texts && claims.texts[k] == payload[k])
    && ("jti" in claims.texts && ("jti" !in payload ==> claims.texts["jti"] == jti))
    && ("purpose" in claims.texts && ("purpose" !in payload ==> claims.texts["purpose"] == opts.purpose))
    && claims.iat == now / 1000 && claims.exp == Some(now / 1000 + opts.expiresIn)
  }

  /**
   A token is generated exactly for payloads that bring no dates of their own; whoever verifies it
   gets back every value of the payload, and purpose and id where the payload brings none.
   */
  lemma GeneratedClaims(opts: Options, payload: map<string, string>, jti: string, now: Millis,
                        verifier: Options, db: Store, signedAt: Millis, readAt: Millis)
    ensures Generate(opts, payload, jti, now).Ok? <==> "exp" !in payload && "iat" !in payload
    ensures Generate(opts, payload, jti, now).Ok? ==>
      var token := Generate(opts, payload, jti, now).value;
      var verified := Verify(verifier, db, token, signedAt, readAt);
      && token.Signed? && token.secret == opts.secret && ClaimsFor(token.claims, opts, payload, jti, now)
      && (verified.Ok? ==> ClaimsFor(verified.value, opts, payload, jti, now))
  {
  }

  lemma HasExpected(opts: Options, claims: Claims)
    requires "purpose" in KeysOf(claims) && "jti" in KeysOf(claims)
    ensures HasData(opts, claims) <==> forall k :: k in opts.dataInToken ==> k in KeysOf(claims)
  {
    forall k ensures k in Expected(opts) <==> k in opts.dataInToken || k == "purpose" || k == "jti" {
      assert k in ["purpose", "jti"] <==> k == "purpose" || k == "jti";
    }
  }

  /** No other service takes it: not one with another secret, nor one with another purpose. */
  lemma OtherServicesRefuse(opts: Options, other: Options, db: Store, payload: map<string, string>, jti: string,
                            now: Millis, t: Millis)
    requires Generate(opts, payload, jti, now).Ok? && "purpose" !in payload
    requires other.secret != opts.secret || other.purpose != opts.purpose
    ensures Verify(other, db, Generate(opts, payload, jti, now).value, t, t).Err?
  {
  }

  // ------------------------------------------------------------ the service

  class TokensService {
    const opts: Options
    const dataInToken: seq<string>
    var db: Store

    ghost predicate Valid()
      reads this
    {
      dataInToken == Expected(opts)
    }

    constructor (opts: Options, db: Store)
      ensures Valid() && this.opts == opts && this.db == db
    {
      this.opts := opts;
      this.db := db;
      dataInToken := opts.dataInToken + ["purpose", "jti"];
    }

    /** Redis refuses exactly the tokens that are past their last second, and those fail verification. */
    method Blacklist(jti: string, exp: Option<int>, now: Millis) returns (reply: Result<(), RedisError>)
      modifies this`db
      ensures db == Blacklisted(old(db), jti, exp, now)
      ensures reply.Ok? <==> (exp.Some? ==> now < 1000 * exp.value + 1000)
      ensures reply.Err? ==> db == old(db)
      ensures forall token: Token, t: Millis :: Names(token, jti, exp) && now <= t ==>
        Verify(opts, db, token, t, t).Err?
    {
      ghost var before := db;
      var ttl := CalculateTokenTtlSeconds(exp, now);
      if exp.Some? { EntryOutlivesToken(db, jti, exp.value, now); }
      if ttl.None? || ttl.value == 0 {
        db := db[BlacklistKey(jti) := Never];
        reply := Ok(());
      } else if ttl.value < 0 {
        reply := Err(InvalidExpireTime);
      } else {
        db := db[BlacklistKey(jti) := At(now + 1000 * ttl.value)];
        reply := Ok(());
      }
      forall token: Token, t: Millis | Names(token, jti, exp) && now <= t ensures Verify(opts, db, token, t, t).Err? {
        BlacklistedForGood(opts, before, jti, exp, now, [], token, t);
      }
    }

    method VerifyToken(token: Token, signedAt: Millis, readAt: Millis) returns (reply: Result<Claims, VerifyError>)
      requires Valid()
      ensures reply == Verify(opts, db, token, signedAt, readAt)
      ensures
        if token == Malformed || token.secret != opts.secret
           || (token.claims.exp.Some? && 1000 * token.claims.exp.value <= signedAt)
        then reply == Err(InvalidToken)
        else if exists k :: k in opts.dataInToken + ["purpose", "jti"] && !HasClaim(token.claims, k)
        then reply == Err(InvalidDataInToken)
        else if !("purpose" in token.claims.texts && token.claims.texts["purpose"] == opts.purpose)
        then reply == Err(InvalidTokenPurpose)
        else
          && "jti" in token.claims.texts
          && reply == if Present(db, BlacklistKey(token.claims.texts["jti"]), readAt)
                      then Err(TokenIsBlacklisted) else Ok(token.claims)
    {
      if !JwtValid(opts, token, signedAt) { return Err(InvalidToken); }
      var payload := token.claims;
      var keys := KeysOf(payload);
      for i := 0 to |dataInToken|
        invariant forall j :: 0 <= j < i ==> dataInToken[j] in keys
      {
        if dataInToken[i] !in keys {
          assert dataInToken[i] in Expected(opts);
          return Err(InvalidDataInToken);
        }
      }
      if !HasPurpose(opts, payload) { return Err(InvalidTokenPurpose); }
      assert dataInToken[|opts.dataInToken| + 1] == "jti";
      if Present(db, BlacklistKey(payload.texts["jti"]), readAt) { return Err(TokenIsBlacklisted); }
      reply := Ok(payload);
    }

    /** Verify, then blacklist: a consumed token does not verify again. */
    method Consume(token: Token, signedAt: Millis, readAt: Millis, storedAt: Millis)
      returns (reply: Result<Claims, VerifyError>, stored: Result<(), RedisError>)
      requires Valid() && signedAt <= readAt <= storedAt
      modifies this`db
      ensures reply == Verify(opts, old(db), token, signedAt, readAt)
      ensures reply.Err? ==> db == old(db)
      ensures reply.Ok? ==> db == Blacklisted(old(db), token.claims.texts["jti"], token.claims.exp, storedAt)
      ensures reply.Ok? ==> forall t: Millis :: storedAt <= t ==> Verify(opts, db, token, t, t).Err?
    {
      stored := Ok(());
      reply := VerifyToken(token, signedAt, readAt);
      if reply.Err? { return; }
      var payload := reply.value;
      stored := Blacklist(payload.texts["jti"], payload.exp, storedAt);
      assert Names(token, payload.texts["jti"], payload.exp);
    }
  }
}
