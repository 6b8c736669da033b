/** The JWT blacklist with expiring entries. Tokens carry whole-second expiry times, so a
    token is accepted through the second it names; a blacklist entry lives for the refresh
    lifetime plus a minute. */
module TokenBlacklist {
  import opened Wrappers

  datatype Kind = Access | Refresh | Mfa

  /** A signed token is determined by its claims: equal claims give the same string. */
  datatype Claims = Claims(subject: nat, expires: int, kind: Kind)

  /** Any string a client may present. */
  datatype Presented = Signed(claims: Claims) | Unsigned(text: string)

  datatype Settings = Settings(accessSeconds: nat, refreshSeconds: nat)

  const MFA_SECONDS: nat := 300

  function BlacklistTtl(s: Settings): int { s.refreshSeconds + 60 }

  function Lifetime(s: Settings, k: Kind): nat {
    match k case Access => s.accessSeconds case Refresh => s.refreshSeconds case Mfa => MFA_SECONDS
  }

  function Mint(s: Settings, subject: nat, k: Kind, now: real): Claims {
    Claims(subject, now.Floor + Lifetime(s, k), k)
  }

  predicate Expired(c: Claims, now: real) { now.Floor > c.expires }

  // ---------------------------------------------------------------- how long an entry must live

  predicate Lapsed(banned: real, ttl: int, now: real) { banned + ttl as real <= now }

  predicate ExpiredSince(issued: real, life: nat, now: real) { now.Floor > issued.Floor + life }

  /** An entry with this time to live outlasts every token of this lifetime: whenever the
      token was issued and later blacklisted, the entry lapses only once the token is expired. */
  ghost predicate Outlasts(ttl: int, life: nat) {
    forall issued, banned, now ::
      Lapsed(banned, ttl, now) && issued <= banned <= now ==> ExpiredSince(issued, life, now)
  }

  lemma FloorPlus(x: real, y: real, n: int)
    requires x + n as real <= y
    ensures x.Floor + n <= y.Floor
  {
  }

  /** Exactly one second more than the lifetime is needed, since a token is still accepted
      during the second in which it expires. */
  lemma OutlastsIff(ttl: int, life: nat)
    ensures Outlasts(ttl, life) <==> ttl >= life + 1
  {
    if ttl >= life + 1 {
      forall issued, banned, now | Lapsed(banned, ttl, now) && issued <= banned <= now
        ensures ExpiredSince(issued, life, now)
      {
        FloorPlus(issued, now, life + 1);
      }
    } else {
      var now := (if ttl > 0 then ttl else 0) as real;
      assert Lapsed(0.0, ttl, now) && !ExpiredSince(0.0, life, now);
    }
  }

  /** So the configured time to live covers refresh and MFA tokens always, and access tokens
      exactly when they outlive refresh tokens by less than a minute. */
  lemma TtlCoversDefaults(s: Settings)
    ensures Outlasts(BlacklistTtl(s), s.refreshSeconds)
    ensures Outlasts(BlacklistTtl(s), s.accessSeconds) <==> s.accessSeconds < s.refreshSeconds + 60
  {
    OutlastsIff(BlacklistTtl(s), s.refreshSeconds);
    OutlastsIff(BlacklistTtl(s), s.accessSeconds);
  }

  /** Every kind of token is covered. */
  predicate Covered(s: Settings) {
    s.accessSeconds < s.refreshSeconds + 60 && MFA_SECONDS < s.refreshSeconds + 60
  }

  datatype RefreshError = InvalidRefreshToken | UserNotFound

  class AuthService {
    const settings: Settings
    /** The Redis entries with the time each lapses. */
    var entries: map<Presented, real>
    /** Every token the service signed. */
    var signed: set<Claims>
    /** A blacklist that never forgets, the refresh tokens already exchanged, and the last
        clock reading. */
    ghost var banned: set<Presented>
    ghost var exchanged: set<Claims>
    ghost var clock: real

    ghost predicate Valid()
      reads this
    {
      && Covered(settings)
      && (forall c :: c in signed ==> c.expires <= clock.Floor + Lifetime(settings, c.kind))
      && (forall c :: Signed(c) in banned ==> c in signed)
      && (forall c :: Signed(c) in banned ==> Signed(c) in entries && entries[Signed(c)] >= c.expires as real + 1.0)
      && (forall p :: p in entries ==> p in banned)
      && (forall c :: c in exchanged ==> Signed(c) in banned)
    }

    /** Nobody can present a signed token before the service signed it. */
    predicate Unforged(p: Presented)
      reads this
    {
      p.Signed? ==> p.claims in signed
    }

    constructor (settings: Settings, now: real)
      requires Covered(settings)
      ensures Valid() && this.settings == settings && clock == now
      ensures banned == {} && exchanged == {} && signed == {}
    {
      this.settings := settings;
      entries, signed, banned, exchanged, clock := map[], {}, {}, {}, now;
    }

    /** SETEX: a new or renewed entry. */
    method Add(p: Presented, now: real)
      requires Valid() && now >= clock && Unforged(p)
      modifies this`entries, this`banned, this`clock
      ensures Valid() && clock == now && banned == old(banned) + {p}
      ensures entries == old(entries)[p := now + settings.refreshSeconds as real + 60.0]
    {
      FloorPlus(clock, now, 0);
      entries := entries[p := now + BlacklistTtl(settings) as real];
      banned := banned + {p};
      clock := now;
    }

    method Contains(p: Presented, now: real) returns (b: bool)
      ensures b <==> p in entries && now < entries[p]
    {
      b := p in entries && now < entries[p];
    }

    /** Sign a token with the default lifetime of its kind. */
    method Issue(subject: nat, k: Kind, now: real) returns (c: Claims)
      requires Valid() && now >= clock
      modifies this`signed, this`clock
      ensures Valid() && clock == now && c == Mint(settings, subject, k, now) && signed == old(signed) + {c}
      ensures c.subject == subject && c.kind == k
      ensures c.expires == now.Floor + (match k case Access => settings.accessSeconds case Refresh => settings.refreshSeconds case Mfa => 300)
    {
      FloorPlus(clock, now, 0);
      c := Mint(settings, subject, k, now);
      signed := signed + {c};
      clock := now;
    }

    /** decode_token answers as if the blacklist never forgot: a token is accepted exactly
        when it was signed here, was never blacklisted, and has not expired. */
    method DecodeToken(p: Presented, now: real) returns (r: Option<Claims>)
      requires Valid() && now >= clock && Unforged(p)
      ensures r.Some? <==> p.Signed? && p !in banned && now.Floor <= p.claims.expires
      ensures r.Some? ==> r.value == p.claims
    {
      var listed := Contains(p, now);
      if listed || p.Unsigned? || Expired(p.claims, now) {
        return None;
      }
      assert p !in banned;
      r := Some(p.claims);
    }

    /** refresh_tokens: rotate a refresh token. Each one is exchanged at most once, and from
        then on DecodeToken rejects it at all times. The new refresh token is usable unless it
        is the very string just rotated, because that was issued within the same second, or
        equals one that was blacklisted before. */
    method RefreshTokens(p: Presented, userExists: bool, now: real) returns (r: Result<(Claims, Claims), RefreshError>)
      requires Valid() && now >= clock && Unforged(p)
      modifies this
      ensures Valid() && old(signed) <= signed && clock == if r.Ok? then now else old(clock)
      ensures r.Ok? <==> p.Signed? && p.claims.kind == Refresh && userExists && p !in old(banned) && now.Floor <= p.claims.expires
      ensures r.Ok? ==> p.claims !in old(exchanged) && exchanged == old(exchanged) + {p.claims} && banned == old(banned) + {p}
      ensures r.Ok? ==> r.value == (Claims(p.claims.subject, now.Floor + settings.accessSeconds, Access),
                                    Claims(p.claims.subject, now.Floor + settings.refreshSeconds, Refresh))
      ensures r.Err? ==> r.error == if p.Signed? && p.claims.kind == Refresh && p !in old(banned) && now.Floor <= p.claims.expires
                                    then UserNotFound else InvalidRefreshToken
      ensures r.Ok? ==> signed == old(signed) + {r.value.0, r.value.1}
      ensures r.Ok? ==> (Signed(r.value.1) in banned <==>
                           p.claims.expires == now.Floor + settings.refreshSeconds || Signed(r.value.1) in old(banned))
      ensures r.Err? ==> banned == old(banned) && exchanged == old(exchanged) && signed == old(signed)
    {
      var payload := DecodeToken(p, now);
      if payload.None? || payload.value.kind != Refresh {
        return Err(InvalidRefreshToken);
      }
      if !userExists {
        return Err(UserNotFound);
      }
      Add(p, now);
      exchanged := exchanged + {payload.value};
      var access := Issue(payload.value.subject, Access, now);
      var refresh := Issue(payload.value.subject, Refresh, now);
      r := Ok((access, refresh));
    }

    /** logout: whichever tokens the client still holds are blacklisted. */
    method Logout(access: Option<Presented>, refresh: Option<Presented>, now: real)
      requires Valid() && now >= clock
      requires (access.Some? ==> Unforged(access.value)) && (refresh.Some? ==> Unforged(refresh.value))
      modifies this`entries, this`banned, this`clock
      ensures Valid() && clock == if access.Some? || refresh.Some? then now else old(clock)
      ensures banned == old(banned) + (if access.Some? then {access.value} else {}) + (if refresh.Some? then {refresh.value} else {})
      ensures forall p :: Some(p) == access || Some(p) == refresh ==>
                p in entries && entries[p] == now + settings.refreshSeconds as real + 60.0
    {
      if access.Some? {
        Add(access.value, now);
      }
      if refresh.Some? {
        Add(refresh.value, now);
      }
    }
  }

  /** Both ways to get a dead token: rotating within the second of issue, and rotating an older
      token within the second in which an equal new one was issued and logged out. */
  method DeadTokens(settings: Settings) returns (auth: AuthService, same: Claims, equal: Claims)
    requires Covered(settings)
    ensures fresh(auth) && auth.Valid()
    ensures Signed(same) in auth.banned && Signed(equal) in auth.banned
  {
    auth := new AuthService(settings, 0.0);
    var first := auth.Issue(1, Refresh, 0.0);
    var r := auth.RefreshTokens(Signed(first), true, 0.5);
    assert 0.5.Floor == 0 && r.Ok? && r.value.1 == first;
    same := r.value.1;
    var aged := auth.Issue(2, Refresh, 1.0);
    equal := auth.Issue(2, Refresh, 10.0);
    auth.Logout(None, Some(Signed(equal)), 10.0);
    r := auth.RefreshTokens(Signed(aged), true, 10.5);
    assert 10.5.Floor == 10 && r.Ok? && r.value.1 == equal != aged;
  }
}
