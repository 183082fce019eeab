/**
 Choosing the account of an ARM client: the token and the subscription id come from two separate
 readings of the cache, and the first may refresh and save it.
 */
module AccountChoice {
  import opened TokenCache
  import opened Wrappers

  /** An account with the latest expiry; the order of the map decides between equals. */
  predicate Newest(m: Accounts, key: string) {
    key in m && forall k :: k in m ==> m[k].expiresAt <= m[key].expiresAt
  }

  /** The same among accounts that have a subscription. */
  predicate NewestNamed(m: Accounts, key: string) {
    && key in m && m[key].subscription != ""
    && forall k :: k in m && m[k].subscription != "" ==> m[k].expiresAt <= m[key].expiresAt
  }

  lemma {:induction false} LatestOf(m: Accounts, keys: set<string>) returns (best: string)
    requires keys <= m.Keys && keys != {}
    ensures best in keys && forall k :: k in keys ==> m[k].expiresAt <= m[best].expiresAt
    decreases |keys|
  {
    best :| best in keys;
    if k :| k in keys && m[k].expiresAt > m[best].expiresAt {
      assert k in keys - {best};
      best := LatestOf(m, keys - {best});
    }
  }

  method GetAccessToken(file: CacheFile, now: int, response: Response, received: int)
    returns (r: Result<Token, AuthError>, chosen: Option<string>)
    requires Sound(file.accounts)
    modifies file
    ensures Sound(file.accounts) && RefreshKept(old(file.accounts), file.accounts)
    ensures r.Err? ==> file.accounts == old(file.accounts)
    ensures chosen.None? <==> old(file.accounts) == map[]
    ensures chosen.Some? ==> Newest(old(file.accounts), chosen.value)
    ensures r.Ok? <==> chosen.Some? && Served(old(file.accounts), chosen.value, now, response)
    ensures r.Ok? ==>
              && chosen.Some?
              && TokenFrom(old(file.accounts), file.accounts, chosen.value, r.value, now, response, received)
  {
    var cache := file.accounts;
    if cache == map[] {
      return Err(NotLoggedIn), None;
    }
    ghost var best := LatestOf(cache, cache.Keys);
    assert Newest(cache, best);
    var key :| key in cache && Newest(cache, key);
    var account := cache[key];
    var provider := new TokenProvider(file, account.subscription, account.tenant);
    if account.subscription in cache && cache[account.subscription].refresh.Some? {
      RefreshesSound(cache, account.subscription, account.tenant, cache[account.subscription].refresh.value,
                     response, received);
    }
    var token := provider.GetToken(now, response, received);
    return token, Some(key);
  }

  /** The account `key` names is bound and a token for its subscription is available. */
  predicate Served(m: Accounts, key: string, now: int, response: Response)
    requires key in m
  {
    m[key].subscription in m && TokenAvailable(m[m[key].subscription], now, response)
  }

  /** The token is that of the account `key` names; the cache changed only if it had to be refreshed. */
  ghost predicate TokenFrom(m: Accounts, n: Accounts, key: string, token: Token, now: int, response: Response,
                            received: int) {
    && key in m
    && var s := m[key].subscription;
       && s in m && s in n && n[s].access == token
       && if IsValid(m[s], now) then n == m
          else response.Granted? && m[s].refresh.Some?
               && n == m[s := Refreshed(s, m[key].tenant, m[s].refresh.value, response, received)]
  }

  method CurrentSubscriptionId(file: CacheFile) returns (r: Result<string, AuthError>)
    ensures r.Ok? ==> exists key :: NewestNamed(file.accounts, key) && r.value == file.accounts[key].subscription
    ensures r.Err? <==> forall k :: k in file.accounts ==> file.accounts[k].subscription == ""
  {
    var cache := file.accounts;
    if forall k :: k in cache ==> cache[k].subscription == "" {
      return Err(NotLoggedIn);
    }
    ghost var named := set k | k in cache && cache[k].subscription != "";
    ghost var some :| some in cache && cache[some].subscription != "";
    assert some in named;
    ghost var best := LatestOf(cache, named);
    assert NewestNamed(cache, best);
    var key :| key in cache && NewestNamed(cache, key);
    return Ok(cache[key].subscription);
  }

  /** Token and subscription of a new ARM client. */
  method ArmClient(file: CacheFile, now: int, response: Response, received: int)
    returns (r: Result<(Token, string), AuthError>, chosen: Option<string>)
    requires Sound(file.accounts) && now <= received
    modifies file
    ensures Sound(file.accounts) && RefreshKept(old(file.accounts), file.accounts)
    ensures chosen.Some? ==> Newest(old(file.accounts), chosen.value)
    // A client is made exactly when a token is available for the account chosen and, then, some account is named.
    ensures r.Ok? <==>
            && chosen.Some? && Served(old(file.accounts), chosen.value, now, response)
            && exists k :: k in file.accounts && file.accounts[k].subscription != ""
    ensures chosen.None? <==> old(file.accounts) == map[]
    ensures r.Ok? ==>
              && chosen.Some?
              && TokenFrom(old(file.accounts), file.accounts, chosen.value, r.value.0, now, response, received)
    ensures r.Ok? ==> exists key :: NewestNamed(file.accounts, key) && r.value.1 == file.accounts[key].subscription
    ensures r.Ok? && NamedApart(old(file.accounts))
            && !Overtaken(old(file.accounts), chosen.value, now, response, received) ==>
              r.value.1 == chosen.value && file.accounts[r.value.1].access == r.value.0
    ensures r.Ok? && NamedApart(old(file.accounts)) && (response.Granted? ==> Lifetime(response) >= FIVE_MINUTES) ==>
              && r.value.1 == chosen.value && file.accounts[r.value.1].access == r.value.0
              && Leads(file.accounts, r.value.1)
  {
    var token;
    token, chosen := GetAccessToken(file, now, response, received);
    if token.Err? {
      return Err(token.error), chosen;
    }
    var subscription := CurrentSubscriptionId(file);
    if subscription.Err? {
      return Err(subscription.error), chosen;
    }
    r := Ok((token.value, subscription.value));
    if NamedApart(old(file.accounts)) {
      PairsExactly(old(file.accounts), file.accounts, chosen.value, token.value, now, response, received);
      if response.Granted? ==> Lifetime(response) >= FIVE_MINUTES {
        LongLivedIsNotOvertaken(old(file.accounts), chosen.value, now, response, received);
        NewestLeads(old(file.accounts), chosen.value);
        KeepsLeading(old(file.accounts), file.accounts, chosen.value, token.value, now, response, received);
      }
    }
  }

  /** Accounts expire at different times, and no account sits under the empty key. */
  ghost predicate NamedApart(m: Accounts) {
    && "" !in m
    && forall j, k :: j in m && k in m && j != k ==> m[j].expiresAt != m[k].expiresAt
  }

  /** The chosen account had to be refreshed, and another named account expires no earlier than it now does. */
  ghost predicate Overtaken(m: Accounts, chosen: string, now: int, response: Response, received: int)
    requires chosen in m
  {
    && !IsValid(m[chosen], now) && response.Granted?
    && exists k :: k in m && k != chosen && m[k].subscription != "" && m[k].expiresAt >= received + Lifetime(response)
  }

  /** The second reading finds the account of the token, whatever the order of the map. */
  ghost predicate Pairs(n: Accounts, chosen: string, token: Token) {
    forall key :: NewestNamed(n, key) ==> n[key].subscription == chosen && key in n && n[key].access == token
  }

  /**
   Token and subscription belong together for every order of the map exactly when the refreshed account
   still expires last.
   */
  lemma PairsExactly(m: Accounts, n: Accounts, chosen: string, token: Token, now: int, response: Response,
                     received: int)
    requires Sound(m) && NamedApart(m) && Newest(m, chosen)
    requires TokenFrom(m, n, chosen, token, now, response, received)
    ensures m[chosen].subscription == chosen
    ensures Pairs(n, chosen, token) <==> !Overtaken(m, chosen, now, response, received)
  {
    assert m[chosen].subscription != "";
    if Overtaken(m, chosen, now, response, received) {
      var named := set k | k in m && k != chosen && m[k].subscription != "";
      var k :| k in m && k != chosen && m[k].subscription != "" && m[k].expiresAt >= received + Lifetime(response);
      assert k in named;
      var best := LatestOf(m, named);
      assert NewestNamed(n, best) && n[best] == m[best];
      assert m[best].subscription == best || IsPending(best);
      OtherKeyOtherSubscription(m, best, chosen);
    } else {
      forall key | NewestNamed(n, key) ensures key == chosen {
        StaysNewest(m, n, chosen, token, now, response, received, key);
      }
    }
  }

  lemma StaysNewest(m: Accounts, n: Accounts, chosen: string, token: Token, now: int, response: Response,
                    received: int, key: string)
    requires Sound(m) && NamedApart(m) && Newest(m, chosen) && m[chosen].subscription == chosen
    requires TokenFrom(m, n, chosen, token, now, response, received)
    requires !Overtaken(m, chosen, now, response, received)
    requires NewestNamed(n, key)
    ensures key == chosen
  {
    assert n[chosen].subscription == chosen && n[chosen].expiresAt <= n[key].expiresAt;
    assert key in m;
  }

  lemma OtherKeyOtherSubscription(m: Accounts, key: string, other: string)
    requires Sound(m) && key in m && m[key].subscription != "" && key != other
    ensures m[key].subscription != other
  {
    assert KeySound(key, m[key]);
  }

  /** A refreshed token that lives five minutes or more outlives every other cached one. */
  lemma LongLivedIsNotOvertaken(m: Accounts, chosen: string, now: int, response: Response, received: int)
    requires Newest(m, chosen) && NamedApart(m) && now <= received
    requires response.Granted? ==> Lifetime(response) >= FIVE_MINUTES
    ensures !Overtaken(m, chosen, now, response, received)
  {
  }

  /** With a shorter lifetime the pairing can break: a concrete cache in which it does. */
  lemma ShortLifetimeMispairs()
    ensures exists m: Accounts, n: Accounts, token: Token, response: Response, received: int ::
              && Sound(m) && NamedApart(m) && Newest(m, "a") && response.Granted? && Lifetime(response) < FIVE_MINUTES
              && TokenFrom(m, n, "a", token, 0, response, received) && !Pairs(n, "a", token)
  {
    var a := Account("a", "t", Token("old", Management), Some("r"), 290 * SECOND, "u", "interactive", None, None);
    var b := Account("b", "t", Token("other", Management), Some("r"), 280 * SECOND, "u", "interactive", None, None);
    var m: Accounts := map["a" := a, "b" := b];
    var response := Granted("new", None, Some(60), "u");
    var n: Accounts := m["a" := Refreshed("a", "t", "r", response, 0)];
    var token := Token("new", Management);
    assert TokenFrom(m, n, "a", token, 0, response, 0);
    assert "b" in m && m["b"].expiresAt >= 0 + Lifetime(response);
    assert Overtaken(m, "a", 0, response, 0);
    PairsExactly(m, n, "a", token, 0, response, 0);
  }

  // ---- Later tokens of a client ----

  /** Of all accounts, bound or pending, the one of this subscription expires last. */
  ghost predicate Leads(m: Accounts, subscription: string) {
    && subscription in m && m[subscription].subscription == subscription
    && forall k :: k in m && k != subscription ==> m[k].expiresAt < m[subscription].expiresAt
  }

  lemma NewestLeads(m: Accounts, chosen: string)
    requires NamedApart(m) && Newest(m, chosen) && m[chosen].subscription == chosen
    ensures Leads(m, chosen)
  {
  }

  /** A refreshed token of five minutes or more leaves its account leading. */
  lemma KeepsLeading(m: Accounts, n: Accounts, subscription: string, token: Token, now: int, response: Response,
                     received: int)
    requires Leads(m, subscription) && TokenFrom(m, n, subscription, token, now, response, received) && now <= received
    requires response.Granted? ==> Lifetime(response) >= FIVE_MINUTES
    ensures Leads(n, subscription)
  {
  }

  datatype Call = Call(now: int, response: Response, received: int) {
    predicate LongLived() {
      now <= received && (response.Granted? ==> Lifetime(response) >= FIVE_MINUTES)
    }
  }

  /**
   The client's refresh callback chooses an account anew on every call. While nothing else changes the
   cache and refreshed tokens live five minutes or more, it is always the account of the client's subscription.
   */
  method ServeCallbacks(file: CacheFile, subscription: string, calls: seq<Call>)
    returns (tokens: seq<Result<Token, AuthError>>, chosen: seq<Option<string>>)
    requires Sound(file.accounts) && Leads(file.accounts, subscription)
    requires forall i :: 0 <= i < |calls| ==> calls[i].LongLived()
    modifies file
    ensures Sound(file.accounts) && Leads(file.accounts, subscription) && |tokens| == |chosen| == |calls|
    ensures forall i :: 0 <= i < |chosen| ==> chosen[i] == Some(subscription)
    // Every token is that of the subscription's account: its cached one or one it was refreshed to.
    ensures forall i :: 0 <= i < |tokens| && tokens[i].Ok? ==>
              tokens[i].value in Tokens(old(file.accounts)[subscription].access, calls[..i + 1])
  {
    tokens, chosen := [], [];
    ghost var first := file.accounts[subscription].access;
    for i := 0 to |calls|
      invariant Sound(file.accounts) && Leads(file.accounts, subscription) && |tokens| == |chosen| == i
      invariant forall j :: 0 <= j < i ==> chosen[j] == Some(subscription)
      invariant file.accounts[subscription].access in Tokens(first, calls[..i])
      invariant forall j :: 0 <= j < i && tokens[j].Ok? ==> tokens[j].value in Tokens(first, calls[..j + 1])
    {
      ghost var before := file.accounts;
      var token, account := GetAccessToken(file, calls[i].now, calls[i].response, calls[i].received);
      MoreTokens(first, calls, i);
      if token.Ok? {
        KeepsLeading(before, file.accounts, subscription, token.value, calls[i].now, calls[i].response,
                     calls[i].received);
      }
      tokens, chosen := tokens + [token], chosen + [account];
    }
  }

  /** The account's tokens so far: the first, and what refreshes granted. */
  ghost function Tokens(first: Token, calls: seq<Call>): set<Token> {
    {first} + set c | c in calls && c.response.Granted? :: Token(c.response.text, Management)
  }

  lemma MoreTokens(first: Token, calls: seq<Call>, i: nat)
    requires i < |calls|
    ensures Tokens(first, calls[..i]) <= Tokens(first, calls[..i + 1])
    ensures calls[i].response.Granted? ==> Token(calls[i].response.text, Management) in Tokens(first, calls[..i + 1])
  {
    assert calls[..i + 1] == calls[..i] + [calls[i]];
    assert calls[i] in calls[..i + 1];
  }

  /**
   Whatever happened to the cache since: the callback chooses the client's account, in every order of the
   map, exactly when it leads.
   */
  lemma CallbackPairsExactly(m: Accounts, subscription: string)
    requires NamedApart(m) && subscription in m && m[subscription].subscription == subscription
    ensures (forall key :: Newest(m, key) ==> key == subscription) <==> Leads(m, subscription)
  {
    var best := LatestOf(m, m.Keys);
    assert Newest(m, best);
  }

  /** Another account that is saved meanwhile and expires later takes the callback over. */
  lemma LaterLoginTakesOver(m: Accounts, subscription: string, key: string, a: Account)
    requires subscription in m && key != subscription && a.expiresAt > m[subscription].expiresAt
    ensures !Newest(m[key := a], subscription)
  {
    assert m[key := a][key] == a;
  }

  // ---- Runs ----

  datatype Operation =
    | Login(account: Account)
    | Bind(tenant: string, subscription: string)
    | Rebind(target: string, filter: Option<string>, now: int, later: int, response: Response, received: int)
    | Client(now: int, response: Response, received: int)
    | VaultToken(subscription: string, tenant: string, now: int, response: Response, received: int)
    | GrafanaToken(subscription: string, tenant: string, response: Response, received: int)

  predicate Possible(op: Operation) {
    match op
    case Login(a) => FromLogin(a)
    case Client(now, _, received) => now <= received
    case _ => true
  }

  method Perform(file: CacheFile, op: Operation)
    requires Sound(file.accounts) && Possible(op)
    modifies file
    ensures Sound(file.accounts)
    // Reading tokens, minting and refreshing lose no account and no refresh token.
    ensures op.Client? || op.VaultToken? || op.GrafanaToken? ==> RefreshKept(old(file.accounts), file.accounts)
  {
    match op {
      case Login(a) => var _ := PersistUnbound(file, a);
      case Bind(tenant, subscription) => var _ := BindSubscription(file, tenant, subscription);
      case Rebind(target, filter, now, later, response, received) =>
        var _ := TryRebindCached(file, target, filter, now, later, response, received);
      case Client(now, response, received) => var _, _ := ArmClient(file, now, response, received);
      case VaultToken(subscription, tenant, now, response, received) =>
        var provider := new TokenProvider(file, subscription, tenant);
        var _ := provider.GetVaultToken(now, response, received);
      case GrafanaToken(subscription, tenant, response, received) =>
        var provider := new TokenProvider(file, subscription, tenant);
        var _ := provider.GetGrafanaToken(response, received);
    }
  }

  /** After any sequence of operations from an empty cache, keys and scopes are sound. */
  method RunFromEmpty(ops: seq<Operation>) returns (file: CacheFile)
    requires forall op :: op in ops ==> Possible(op)
    ensures forall k :: k in file.accounts ==> KeySound(k, file.accounts[k]) && ScopesSound(file.accounts[k])
  {
    file := new CacheFile();
    for i := 0 to |ops|
      invariant fresh(file) && Sound(file.accounts)
    {
      assert ops[i] in ops;
      Perform(file, ops[i]);
    }
  }
}
