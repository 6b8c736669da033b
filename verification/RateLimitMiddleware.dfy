/** Which key a request is charged to, and the middleware that drives the counter. */
module RateLimitMiddleware {
  import opened RateLimit

  datatype PathLimit = PathLimit(pattern: string, requestsPerMinute: int)

  /** burst is burst_size, or 0 where that is absent. */
  datatype Config = Config(requestsPerMinute: int, burst: int, excludePaths: seq<string>, pathLimits: seq<PathLimit>)

  const WINDOW_SIZE := 60.0

  predicate StartsWith(path: string, prefix: string) { prefix <= path }

  function LimitOf(limits: seq<PathLimit>, default: int, path: string): int {
    if limits == [] then default
    else if StartsWith(path, limits[0].pattern) then limits[0].requestsPerMinute
    else LimitOf(limits[1..], default, path)
  }

  function LimitForPath(config: Config, path: string): int {
    LimitOf(config.pathLimits, config.requestsPerMinute, path)
  }

  lemma {:induction false} FirstMatch(limits: seq<PathLimit>, default: int, path: string, k: nat)
    requires k <= |limits| && forall j :: 0 <= j < k ==> !(limits[j].pattern <= path)
    requires k < |limits| ==> limits[k].pattern <= path
    ensures LimitOf(limits, default, path) == if k < |limits| then limits[k].requestsPerMinute else default
  {
    if k > 0 {
      FirstMatch(limits[1..], default, path, k - 1);
    }
  }

  /** The first pattern that is a prefix of the path decides, else the default. */
  lemma FirstMatchWins(config: Config, path: string, k: nat)
    requires k <= |config.pathLimits| && forall j :: 0 <= j < k ==> !(config.pathLimits[j].pattern <= path)
    requires k < |config.pathLimits| ==> config.pathLimits[k].pattern <= path
    ensures LimitForPath(config, path)
         == if k < |config.pathLimits| then config.pathLimits[k].requestsPerMinute else config.requestsPerMinute
  {
    FirstMatch(config.pathLimits, config.requestsPerMinute, path, k);
  }

  /** All paths at the default limit share one budget for a client; any other path has its own. */
  lemma BudgetsOfClient(config: Config, client: string, p: string, p': string)
    ensures RateKey(config, client, p) == RateKey(config, client, p')
       <==> p == p' || (LimitForPath(config, p) == config.requestsPerMinute == LimitForPath(config, p'))
  {
    assert (client + ":" + p)[|client| + 1..] == p && (client + ":" + p')[|client| + 1..] == p';
  }

  predicate Excluded(config: Config, path: string) {
    exists i :: 0 <= i < |config.excludePaths| && StartsWith(path, config.excludePaths[i])
  }

  predicate ColonFree(client: string) {
    forall i :: 0 <= i < |client| ==> client[i] != ':'
  }

  /** The default client key: sixteen hex digits of a hash of the client address. */
  predicate HashedKey(client: string) {
    |client| == 16 && forall i :: 0 <= i < 16 ==> '0' <= client[i] <= '9' || 'a' <= client[i] <= 'f'
  }

  lemma HashedIsColonFree(client: string)
    requires HashedKey(client)
    ensures ColonFree(client)
  {
  }

  function RateKey(config: Config, client: string, path: string): string {
    if LimitForPath(config, path) != config.requestsPerMinute then client + ":" + path else client
  }

  /** What stands before the first colon. */
  function ClientPart(key: string): string {
    if key == [] || key[0] == ':' then [] else [key[0]] + ClientPart(key[1..])
  }

  lemma {:induction false} ClientPartOf(client: string, rest: string)
    requires ColonFree(client) && (rest == [] || rest[0] == ':')
    ensures ClientPart(client + rest) == client
  {
    if client == [] {
      assert client + rest == rest;
    } else {
      ClientPartOf(client[1..], rest);
      assert (client + rest)[1..] == client[1..] + rest;
    }
  }

  lemma ClientOfKey(config: Config, client: string, path: string)
    requires ColonFree(client)
    ensures ClientPart(RateKey(config, client, path)) == client
  {
    ClientPartOf(client, ":" + path);
    ClientPartOf(client, []);
    assert client + ":" + path == client + (":" + path) && client + [] == client;
  }

  /** With client keys that contain no colon, requests that share a rate key share the client
      and the limit. */
  lemma OneLimitPerKey(config: Config, c: string, p: string, c': string, p': string)
    requires ColonFree(c) && ColonFree(c')
    requires RateKey(config, c, p) == RateKey(config, c', p')
    ensures c == c' && LimitForPath(config, p) == LimitForPath(config, p')
  {
    ClientOfKey(config, c, p);
    ClientOfKey(config, c', p');
    assert (c + ":")[..|c|] == c;
    if LimitForPath(config, p) != config.requestsPerMinute && LimitForPath(config, p') != config.requestsPerMinute {
      var k := RateKey(config, c, p);
      assert k[|c| + 1..] == p && k[|c| + 1..] == p';
    }
  }

  /** A client key with a colon in it can collide with another client's path key, so that a
      custom key function may charge one key at two limits. */
  lemma CustomKeysMayCollide() returns (config: Config, c: string, p: string, c': string, p': string)
    ensures RateKey(config, c, p) == RateKey(config, c', p') && LimitForPath(config, p) != LimitForPath(config, p')
  {
    config := Config(100, 10, [], [PathLimit("/login", 5)]);
    c, p, c', p' := "a", "/login", "a:/login", "/home";
    assert LimitOf(config.pathLimits[1..], 100, p') == 100;
    assert "a" + ":" + "/login" == "a:/login";
  }

  /** A charge as the middleware makes it: some client asked for some path. */
  ghost predicate ChargedBy(config: Config, key: string, c: Charge) {
    && c.burst == config.burst
    && exists client, path :: ColonFree(client) && RateKey(config, client, path) == key && c.limit == LimitForPath(config, path)
  }

  ghost predicate AllCharged(config: Config, charges: ChargeLog) {
    forall key, i :: key in charges && 0 <= i < |charges[key]| ==> ChargedBy(config, key, charges[key][i])
  }

  lemma OneMoreCharged(config: Config, charges: ChargeLog, client: string, path: string, now: real)
    requires AllCharged(config, charges) && ColonFree(client)
    ensures var key, c := RateKey(config, client, path), Charge(now, LimitForPath(config, path), config.burst);
            AllCharged(config, Logged(charges, key, c))
  {
    assert ChargedBy(config, RateKey(config, client, path), Charge(now, LimitForPath(config, path), config.burst));
  }

  class Middleware {
    const config: Config
    const counter: SlidingWindowCounter

    ghost predicate Valid()
      reads this, counter
    {
      && counter.Valid() && counter.windowSize == WINDOW_SIZE
      && AllCharged(config, counter.charges)
    }

    constructor (config: Config, now: real)
      ensures Valid() && this.config == config && fresh(counter) && counter.clock == now
    {
      this.config := config;
      this.counter := new SlidingWindowCounter(WINDOW_SIZE, now);
    }

    /** dispatch: the response is served (None means the path is not limited) or 429. */
    method Dispatch(path: string, client: string, now: real) returns (served: bool, remaining: int)
      requires Valid() && ColonFree(client) && now >= counter.clock
      modifies counter
      ensures Valid() && counter.clock == if Excluded(config, path) then old(counter.clock) else now
      ensures Excluded(config, path) <==> exists i :: 0 <= i < |config.excludePaths| && config.excludePaths[i] <= path
      ensures Excluded(config, path) ==> served && counter.charges == old(counter.charges)
      ensures !Excluded(config, path) ==>
                var key := RateKey(config, client, path);
                (served, remaining) == Decide(old(counter.History(key)), WINDOW_SIZE, Charge(now, LimitForPath(config, path), config.burst))
    {
      if Excluded(config, path) {
        return true, 0;
      }
      var limit := LimitForPath(config, path);
      var key := RateKey(config, client, path);
      served, remaining := counter.IsAllowed(key, limit, config.burst, now);
      OneMoreCharged(config, old(counter.charges), client, path, now);
    }

    /** At any time in any run, a client's requests to a path fill every one-minute window at
        most up to that path's limit plus the burst. */
    lemma WindowsBounded(client: string, path: string, x: real)
      requires Valid() && ColonFree(client)
      ensures var allowance := LimitForPath(config, path) + config.burst;
              |InWindow(counter.History(RateKey(config, client, path)), WINDOW_SIZE, x)| <= if allowance > 0 then allowance else 0
    {
      var key := RateKey(config, client, path);
      var cs := counter.Charges(key);
      var allowance := LimitForPath(config, path) + config.burst;
      forall i | 0 <= i < |cs|
        ensures cs[i].limit + cs[i].burst <= allowance
      {
        assert ChargedBy(config, key, cs[i]);
        var c, p :| ColonFree(c) && RateKey(config, c, p) == key && cs[i].limit == LimitForPath(config, p);
        OneLimitPerKey(config, c, p, client, path);
      }
      assert KeyAgrees(counter.windows, WINDOW_SIZE, counter.charges, counter.clock, key);
      WindowBound(WINDOW_SIZE, cs, if allowance > 0 then allowance else 0, x);
    }
  }
}
