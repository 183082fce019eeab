/**
 The token cache file and the operations that read, change and save it. Time is counted in
 nanoseconds; what the identity service answers and when is an input.
 */
module TokenCache {
  import opened Wrappers

  /** What a token may be used for: its audience. */
  datatype Scope = Management | KeyVault | Grafana

  datatype Token = Token(text: string, scope: Scope)

  datatype Account = Account(
    subscription: string, tenant: string,
    access: Token, refresh: Option<string>, expiresAt: int,
    username: string, authMethod: string,
    vault: Option<Token>, vaultExpiresAt: Option<int>)

  type Accounts = map<string, Account>

  /** The token endpoint's answer: an error, or a token for the scope that was asked for. */
  datatype Response = Refused | Granted(text: string, refresh: Option<string>, expiresIn: Option<int>, username: string)

  datatype AuthError = NotLoggedIn | RefreshRejected | NoPendingLogin | NoRefreshToken

  const SECOND := 1_000_000_000
  const FIVE_MINUTES := 300 * SECOND

  function Lifetime(r: Response): int
    requires r.Granted?
  {
    r.expiresIn.GetOr(3600) * SECOND
  }

  predicate IsValid(a: Account, now: int) {
    now + FIVE_MINUTES < a.expiresAt
  }

  predicate IsVaultTokenValid(a: Account, now: int) {
    a.vault.Some? && a.vaultExpiresAt.Some? && now + FIVE_MINUTES < a.vaultExpiresAt.value
  }

  /** A token that lives five minutes and more from `now` on is used as it is. */
  predicate Lasts(expiresAt: int, now: int) {
    expiresAt > now + 300 * 1_000_000_000
  }

  /** A token of an account can be had: its own while it lasts, or one its refresh token is granted. */
  predicate TokenAvailable(a: Account, now: int, response: Response) {
    Lasts(a.expiresAt, now) || (a.refresh.Some? && response.Granted?)
  }

  predicate VaultLasts(a: Account, now: int) {
    a.vault.Some? && a.vaultExpiresAt.Some? && Lasts(a.vaultExpiresAt.value, now)
  }

  /** When a token granted at `received` expires: after an hour unless the answer says otherwise. */
  function ExpiryOf(response: Response, received: int): int
    requires response.Granted?
  {
    received + 1_000_000_000 * (match response.expiresIn case Some(seconds) => seconds case None => 3600)
  }

  function PendingKey(tenant: string): string {
    "_pending:" + tenant
  }

  predicate IsPending(key: string) {
    "_pending:" <= key
  }

  // ---- What every operation keeps ----

  /** A login that is not bound yet has no subscription; every other key is its account's. */
  predicate KeySound(key: string, a: Account) {
    a.subscription == key || (IsPending(key) && a.subscription == "")
  }

  predicate ScopesSound(a: Account) {
    a.access.scope == Management && (a.vault.Some? ==> a.vault.value.scope == KeyVault)
  }

  ghost predicate Sound(m: Accounts) {
    forall k :: k in m ==> KeySound(k, m[k]) && ScopesSound(m[k])
  }

  /** No key lost its account or its refresh token. */
  ghost predicate RefreshKept(m: Accounts, n: Accounts) {
    forall k :: k in m ==> k in n && (m[k].refresh.Some? ==> n[k].refresh.Some?)
  }

  class CacheFile {
    var accounts: Accounts

    constructor ()
      ensures accounts == map[]
    {
      accounts := map[];
    }
  }

  /** The account a granted refresh leaves behind. */
  function Refreshed(subscription: string, tenant: string, refresh: string, r: Response, received: int): Account
    requires r.Granted?
  {
    Account(subscription, tenant, Token(r.text, Management),
            if r.refresh.Some? then r.refresh else Some(refresh),
            received + Lifetime(r), r.username, "refresh", None, None)
  }

  class TokenProvider {
    const file: CacheFile
    const subscription: string
    const tenant: string
    /** The file as it was loaded. */
    var cache: Accounts

    constructor (file: CacheFile, subscription: string, tenant: string)
      ensures this.file == file && this.subscription == subscription && this.tenant == tenant
      ensures cache == file.accounts
    {
      this.file, this.subscription, this.tenant, cache := file, subscription, tenant, file.accounts;
    }

    ghost predicate Loaded()
      reads this, file
    {
      cache == file.accounts
    }

    method Refresh(refresh: string, response: Response, received: int) returns (r: Result<Token, AuthError>)
      requires Loaded()
      modifies this, file
      ensures Loaded()
      ensures response.Refused? ==> r == Err(RefreshRejected) && cache == old(cache)
      ensures response.Granted? ==>
                && r == Ok(Token(response.text, Management))
                && cache == old(cache)[subscription := Refreshed(subscription, tenant, refresh, response, received)]
      ensures response.Granted? ==>
                var a := cache[subscription];
                && a.subscription == subscription && a.tenant == tenant && a.username == response.username
                && a.access.text == response.text && a.access.scope == Management
                && a.expiresAt == ExpiryOf(response, received)
                && a.refresh == (if response.refresh == None then Some(refresh) else response.refresh)
                && a.vault == None && a.vaultExpiresAt == None && a.authMethod == "refresh"
    {
      if response.Refused? {
        return Err(RefreshRejected);
      }
      var token := Token(response.text, Management);
      cache := cache[subscription := Refreshed(subscription, tenant, refresh, response, received)];
      file.accounts := cache;
      return Ok(token);
    }

    method GetToken(now: int, response: Response, received: int) returns (r: Result<Token, AuthError>)
      requires Loaded()
      modifies this, file
      ensures Loaded()
      // A token is returned exactly when one is available; a lasting one is returned as it is.
      ensures r.Ok? <==> subscription in old(cache) && TokenAvailable(old(cache)[subscription], now, response)
      ensures subscription in old(cache) && Lasts(old(cache)[subscription].expiresAt, now) ==>
                r == Ok(old(cache)[subscription].access) && cache == old(cache)
      ensures subscription in old(cache) && old(cache)[subscription].refresh.Some? && r.Err? ==>
                r == Err(RefreshRejected)
      ensures subscription in old(cache) && old(cache)[subscription].refresh.None? && r.Err? ==> r == Err(NotLoggedIn)
      ensures subscription !in old(cache) ==> r == Err(NotLoggedIn)
      ensures r.Err? ==> cache == old(cache)
      ensures r.Ok? ==> subscription in cache && r.value == cache[subscription].access
      ensures r.Ok? && IsValid(old(cache)[subscription], now) ==> cache == old(cache)
      ensures r.Ok? && !IsValid(old(cache)[subscription], now) ==>
                && old(cache)[subscription].refresh.Some? && response.Granted?
                && cache == old(cache)[subscription :=
                     Refreshed(subscription, tenant, old(cache)[subscription].refresh.value, response, received)]
    {
      if subscription in cache && IsValid(cache[subscription], now) {
        return Ok(cache[subscription].access);
      }
      var refreshToken := if subscription in cache then cache[subscription].refresh else None;
      if refreshToken.Some? {
        r := Refresh(refreshToken.value, response, received);
        return;
      }
      return Err(NotLoggedIn);
    }

    /** Mints a token for another scope; `store` says whether it goes into the vault slot. */
    method MintScoped(scope: Scope, response: Response, received: int, store: bool)
      returns (r: Result<Token, AuthError>)
      requires Loaded()
      modifies this, file
      ensures Loaded()
      ensures response.Refused? ==> r == Err(RefreshRejected) && cache == old(cache)
      ensures response.Granted? ==> r == Ok(Token(response.text, scope))
      ensures response.Granted? && !(store && subscription in old(cache)) ==> cache == old(cache)
      ensures response.Granted? && store && subscription in old(cache) ==>
                var a := old(cache)[subscription];
                cache == old(cache)[subscription := a.(
                  vault := Some(Token(response.text, scope)), vaultExpiresAt := Some(received + Lifetime(response)),
                  refresh := if response.refresh.Some? then response.refresh else a.refresh)]
    {
      if response.Refused? {
        return Err(RefreshRejected);
      }
      var token := Token(response.text, scope);
      if store {
        if subscription in cache {
          var a := cache[subscription];
          a := a.(vault := Some(token), vaultExpiresAt := Some(received + Lifetime(response)));
          if response.refresh.Some? {
            a := a.(refresh := response.refresh);
          }
          cache := cache[subscription := a];
        }
        file.accounts := cache;
      }
      return Ok(token);
    }

    method GetVaultToken(now: int, response: Response, received: int) returns (r: Result<Token, AuthError>)
      requires Loaded() && Sound(cache)
      modifies this, file
      ensures Loaded() && Sound(cache) && RefreshKept(old(cache), cache) && cache.Keys == old(cache).Keys
      ensures r.Err? ==> cache == old(cache)
      ensures r.Ok? ==> subscription in cache && r.value.scope == KeyVault && Some(r.value) == cache[subscription].vault
      ensures r.Ok? <==>
              && subscription in old(cache)
              && (VaultLasts(old(cache)[subscription], now)
                  || (old(cache)[subscription].refresh.Some? && response.Granted?))
      ensures subscription in old(cache) && VaultLasts(old(cache)[subscription], now) ==>
                Some(r.value) == old(cache)[subscription].vault && cache == old(cache)
      ensures r.Ok? && !VaultLasts(old(cache)[subscription], now) ==>
                && r.value.text == response.text
                && cache[subscription].vaultExpiresAt == Some(ExpiryOf(response, received))
    {
      if subscription in cache && IsVaultTokenValid(cache[subscription], now) {
        return Ok(cache[subscription].vault.value);
      }
      var refreshToken := if subscription in cache then cache[subscription].refresh else None;
      if refreshToken.None? {
        return Err(NotLoggedIn);
      }
      r := MintScoped(KeyVault, response, received, true);
    }

    method GetGrafanaToken(response: Response, received: int) returns (r: Result<Token, AuthError>)
      requires Loaded()
      modifies this, file
      ensures Loaded() && cache == old(cache)
      ensures r.Ok? <==> subscription in cache && cache[subscription].refresh.Some? && response.Granted?
      ensures r.Ok? ==> r.value == Token(response.text, Grafana)
    {
      var refreshToken := if subscription in cache then cache[subscription].refresh else None;
      if refreshToken.None? {
        return Err(NotLoggedIn);
      }
      r := MintScoped(Grafana, response, received, false);
    }
  }

  lemma RefreshKeepsSound(m: Accounts, subscription: string, tenant: string, refresh: string, r: Response,
                          received: int)
    requires Sound(m) && r.Granted?
    ensures var n := m[subscription := Refreshed(subscription, tenant, refresh, r, received)];
            Sound(n) && RefreshKept(m, n)
  {
  }

  // ---- Logging in, binding, rebinding ----

  /** What a login flow returns: no subscription yet, a management token, no vault token. */
  predicate FromLogin(a: Account) {
    a.subscription == "" && a.access.scope == Management && a.vault.None? && a.vaultExpiresAt.None?
  }

  method PersistUnbound(file: CacheFile, a: Account) returns (r: Account)
    requires Sound(file.accounts) && (FromLogin(a) || (a.subscription != "" && ScopesSound(a)))
    modifies file
    ensures Sound(file.accounts) && r == a
    ensures file.accounts ==
              old(file.accounts)[if a.subscription == "" then PendingKey(a.tenant) else a.subscription := a]
  {
    var key := if a.subscription == "" then PendingKey(a.tenant) else a.subscription;
    file.accounts := file.accounts[key := a];
    return a;
  }

  method BindSubscription(file: CacheFile, tenant: string, subscription: string) returns (r: Result<Account, AuthError>)
    requires Sound(file.accounts)
    modifies file
    ensures Sound(file.accounts)
    ensures PendingKey(tenant) !in old(file.accounts) ==>
              r == Err(NoPendingLogin) && file.accounts == old(file.accounts)
    ensures PendingKey(tenant) in old(file.accounts) ==>
              && r == Ok(old(file.accounts)[PendingKey(tenant)].(subscription := subscription))
              && Replaces(old(file.accounts), file.accounts, PendingKey(tenant), subscription, r.value)
  {
    var cache := file.accounts;
    var pendingKey := PendingKey(tenant);
    if pendingKey !in cache {
      return Err(NoPendingLogin);
    }
    var account := cache[pendingKey];
    cache := cache - {pendingKey};
    account := account.(subscription := subscription);
    cache := cache[subscription := account];
    file.accounts := cache;
    return Ok(account);
  }

  /** `n` is `m` with the source key replaced by the target key, which holds `a`; nothing else changed. */
  ghost predicate Replaces(m: Accounts, n: Accounts, source: string, target: string, a: Account) {
    && n.Keys == m.Keys - {source} + {target}
    && n[target] == a && a.subscription == target
    && forall k :: k in n && k != target ==> n[k] == m[k]
  }

  predicate TenantMatches(a: Account, filter: Option<string>) {
    filter.None? || a.tenant == filter.value || filter.value == "common" || filter.value == "organizations"
  }

  predicate Usable(a: Account, filter: Option<string>, now: int) {
    TenantMatches(a, filter) && (IsValid(a, now) || a.refresh.Some?)
  }

  /** A usable account with the latest expiry; the order of the map decides between equals. */
  predicate Candidate(m: Accounts, key: string, filter: Option<string>, now: int) {
    && key in m && Usable(m[key], filter, now)
    && forall k :: k in m && Usable(m[k], filter, now) ==> m[k].expiresAt <= m[key].expiresAt
  }

  lemma {:induction false} CandidateExists(m: Accounts, keys: set<string>, filter: Option<string>, now: int)
    returns (best: string)
    requires keys <= m.Keys && exists k :: k in keys && Usable(m[k], filter, now)
    ensures best in keys && Usable(m[best], filter, now)
    ensures forall k :: k in keys && Usable(m[k], filter, now) ==> m[k].expiresAt <= m[best].expiresAt
    decreases |keys|
  {
    best :| best in keys && Usable(m[best], filter, now);
    if k :| k in keys && Usable(m[k], filter, now) && m[k].expiresAt > m[best].expiresAt {
      var rest := keys - {best};
      assert k in rest;
      best := CandidateExists(m, rest, filter, now);
    }
  }

  /** The cached account, refreshed first when it is about to expire. */
  method Freshen(file: CacheFile, key: string, later: int, response: Response, received: int)
    returns (r: Result<Account, AuthError>)
    requires Sound(file.accounts) && key in file.accounts
    modifies file
    ensures Sound(file.accounts)
    ensures r.Err? ==> file.accounts == old(file.accounts)
    ensures r.Ok? ==>
              file.accounts == old(file.accounts)[key := r.value] && RefreshKept(old(file.accounts), file.accounts)
    ensures r.Ok? <==> TokenAvailable(old(file.accounts)[key], later, response)
    ensures Lasts(old(file.accounts)[key].expiresAt, later) ==> r == Ok(old(file.accounts)[key])
    ensures r.Ok? && !Lasts(old(file.accounts)[key].expiresAt, later) ==>
              r.value.access.text == response.text && r.value.expiresAt == ExpiryOf(response, received)
  {
    var account := file.accounts[key];
    if IsValid(account, later) {
      assert file.accounts == file.accounts[key := account];
      return Ok(account);
    }
    if account.refresh.None? {
      return Err(NoRefreshToken);
    }
    var provider := new TokenProvider(file, key, account.tenant);
    RefreshesSound(file.accounts, key, account.tenant, account.refresh.value, response, received);
    var token := provider.Refresh(account.refresh.value, response, received);
    if token.Err? {
      return Err(token.error);
    }
    return Ok(file.accounts[key]);
  }

  lemma RefreshesSound(m: Accounts, subscription: string, tenant: string, refresh: string, r: Response, received: int)
    requires Sound(m)
    ensures r.Granted? ==>
              var n := m[subscription := Refreshed(subscription, tenant, refresh, r, received)];
              Sound(n) && RefreshKept(m, n)
  {
    if r.Granted? {
      RefreshKeepsSound(m, subscription, tenant, refresh, r, received);
    }
  }

  /** Re-keys the account of `key`, as the file now holds it, under `target`. */
  method MoveKey(file: CacheFile, cache: Accounts, key: string, target: string, found: Account)
    returns (account: Account)
    requires Sound(file.accounts) && key in file.accounts && file.accounts[key] == found
    requires file.accounts == cache[key := found]
    modifies file
    ensures Sound(file.accounts) && Replaces(old(file.accounts), file.accounts, key, target, account)
    ensures account.refresh == found.refresh && account.access == found.access
    ensures account.expiresAt == found.expiresAt && account.tenant == found.tenant && account.username == found.username
    ensures account.vault == found.vault && account.vaultExpiresAt == found.vaultExpiresAt
    ensures account.authMethod == if key == target then found.authMethod else found.authMethod + " (rebound)"
  {
    account := found;
    if key != target {
      account := account.(subscription := target, authMethod := account.authMethod + " (rebound)");
      file.accounts := (file.accounts - {key})[target := account];
    } else if account.subscription != target {
      account := account.(subscription := target);
      file.accounts := cache[target := account];
    }
    assert file.accounts.Keys == old(file.accounts).Keys - {key} + {target};
    assert account.subscription == target;
    assert forall k :: k in file.accounts && k != target ==> file.accounts[k] == old(file.accounts)[k];
  }

  /** An account in the tenant asked for, with a token that lasts or one that can be refreshed. */
  predicate MayServe(a: Account, filter: Option<string>, now: int) {
    && filter in [None, Some(a.tenant), Some("common"), Some("organizations")]
    && (Lasts(a.expiresAt, now) || a.refresh.Some?)
  }

  lemma UsableServes(m: Accounts, filter: Option<string>, now: int)
    ensures forall k :: k in m ==> (Usable(m[k], filter, now) <==> MayServe(m[k], filter, now))
  {
  }

  method TryRebindCached(file: CacheFile, target: string, filter: Option<string>,
                         now: int, later: int, response: Response, received: int)
    returns (r: Result<Option<Account>, AuthError>)
    requires Sound(file.accounts)
    modifies file
    ensures Sound(file.accounts)
    ensures r.Err? ==> file.accounts == old(file.accounts)
    ensures r == Ok(None) ==> file.accounts == old(file.accounts)
    ensures r == Ok(None) <==> NoneUsable(old(file.accounts), filter, now)
    ensures r.Ok? && r.value.Some? ==>
              exists key :: Rebinds(old(file.accounts), file.accounts, key, target, filter, now, r.value.value)
    ensures r == Ok(None) <==>
            forall k :: k in old(file.accounts) ==> !MayServe(old(file.accounts)[k], filter, now)
    // It fails exactly when the account picked has no lasting token by then and none is granted.
    ensures !NoneUsable(old(file.accounts), filter, now) ==>
              exists key :: Candidate(old(file.accounts), key, filter, now)
                            && (r.Ok? <==> TokenAvailable(old(file.accounts)[key], later, response))
  {
    hide Sound, IsValid, Usable, MayServe, Lasts, TokenAvailable, Candidate, Replaces;
    var cache := file.accounts;
    UsableServes(cache, filter, now);
    if NoneUsable(cache, filter, now) {
      return Ok(None);
    }
    ghost var best := BestExists(cache, filter, now);
    var key :| key in cache && Candidate(cache, key, filter, now);
    var ready := Freshen(file, key, later, response, received);
    assert Candidate(old(file.accounts), key, filter, now);
    if ready.Err? {
      return Err(ready.error);
    }
    var account := MoveKey(file, cache, key, target, ready.value);
    ReplacesRefreshed(cache, file.accounts, key, ready.value, target, account);
    assert Rebinds(old(file.accounts), file.accounts, key, target, filter, now, account);
    return Ok(Some(account));
  }

  /** Moving the refreshed account is moving the account that was there. */
  lemma ReplacesRefreshed(m: Accounts, n: Accounts, key: string, refreshed: Account, target: string, account: Account)
    requires Replaces(m[key := refreshed], n, key, target, account)
    ensures Replaces(m, n, key, target, account)
  {
  }

  predicate NoneUsable(m: Accounts, filter: Option<string>, now: int) {
    forall k :: k in m ==> !Usable(m[k], filter, now)
  }

  lemma BestExists(m: Accounts, filter: Option<string>, now: int) returns (best: string)
    requires !NoneUsable(m, filter, now)
    ensures best in m && Candidate(m, best, filter, now)
  {
    best := CandidateExists(m, m.Keys, filter, now);
  }

  /** The newest usable account moved from `key` to `target`, its refresh token with it. */
  ghost predicate Rebinds(m: Accounts, n: Accounts, key: string, target: string, filter: Option<string>, now: int,
                          a: Account) {
    && Candidate(m, key, filter, now)
    && Replaces(m, n, key, target, a)
    && (m[key].refresh.Some? ==> a.refresh.Some?)
  }
}
