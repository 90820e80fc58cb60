/**
 The session behind the readers-writer lock (src/vault/mod.rs): its fields, the writes made while
 the write lock is held, and the fetch made while a read lock is held.
 */
module Sessions {
  import opened Results
  import opened Crypto
  import opened Vault
  import opened Lookup

  datatype SecretRequest = SecretRequest(name: string, vault: Option<string>)

  datatype VaultError = LookupFailed(e: LookupError) | NotInitialized

  type FetchResult = Result<seq<string>, VaultError>

  datatype SessionState = SessionState(accessToken: string, refreshToken: string, expiresAt: int,
                                       symKey: SymmetricKey, vault: Option<VaultCache>, lastRefreshAt: int)

  /** A token answer to be stored: a token refresh carries no key and maybe no refresh token. */
  datatype Change = Change(accessToken: string, refreshToken: Option<string>, lifetime: nat,
                           symKey: Option<SymmetricKey>)

  /** The assignments of a token write, in program order. */
  const TOKEN_WRITES: nat := 4

  function WriteToken(s: SessionState, ch: Change, k: nat, now: int): SessionState
    requires k < TOKEN_WRITES
  {
    if k == 0 then s.(accessToken := ch.accessToken)
    else if k == 1 then (if ch.refreshToken.Some? then s.(refreshToken := ch.refreshToken.value) else s)
    else if k == 2 then s.(expiresAt := now + ch.lifetime)
    else if ch.symKey.Some? then s.(symKey := ch.symKey.value) else s
  }

  /** The session after all four, made at one moment. */
  function Stored(s: SessionState, ch: Change, now: int): SessionState {
    WriteToken(WriteToken(WriteToken(WriteToken(s, ch, 0, now), ch, 1, now), ch, 2, now), ch, 3, now)
  }

  /** The session with a freshly decrypted cache. */
  function Refreshed(s: SessionState, cache: VaultCache, now: int): SessionState {
    s.(vault := Some(cache), lastRefreshAt := now)
  }

  // ----- what a fetch on one cache answers -----

  ghost predicate Yields(env: Env, cache: VaultCache, req: SecretRequest, v: string)
    requires WellIndexed(cache)
  {
    var item := LookupItem(env, cache, req.name, req.vault);
    item.Ok? && IsSecret(item.value, v)
  }

  /** Request `i` is the first that fails, and it fails with `e`. */
  predicate FailsFirst(env: Env, cache: VaultCache, reqs: seq<SecretRequest>, i: nat, e: LookupError)
    requires WellIndexed(cache)
  {
    && i < |reqs|
    && LookupItem(env, cache, reqs[i].name, reqs[i].vault) == Err(e)
    && forall j :: 0 <= j < i ==> LookupItem(env, cache, reqs[j].name, reqs[j].vault).Ok?
  }

  /** `r` is a fetch of `reqs` from the one cache `cache`: one secret per request, or the first failure. */
  ghost predicate Answers(env: Env, cache: VaultCache, reqs: seq<SecretRequest>, r: FetchResult)
    requires WellIndexed(cache)
  {
    match r
    case Ok(vs) => |vs| == |reqs| && forall i :: 0 <= i < |reqs| ==> Yields(env, cache, reqs[i], vs[i])
    case Err(LookupFailed(e)) => exists i: nat :: FailsFirst(env, cache, reqs, i, e)
    case Err(NotInitialized) => false
  }

  /** If some request fails first with `e`, then `e` is the only answer the cache allows. */
  lemma FailureDecides(env: Env, cache: VaultCache, reqs: seq<SecretRequest>, i: nat, e: LookupError, r: FetchResult)
    requires WellIndexed(cache) && FailsFirst(env, cache, reqs, i, e) && Answers(env, cache, reqs, r)
    ensures r == Err(LookupFailed(e))
  {
    hide LookupItem, IsSecret;
    if r.Err? {
      var j: nat :| FailsFirst(env, cache, reqs, j, r.error.e);
      assert i == j;
    }
  }

  class Session {
    var accessToken: string
    var refreshToken: string
    var expiresAt: int
    var symKey: SymmetricKey
    var vault: Option<VaultCache>
    var lastRefreshAt: int

    function State(): SessionState
      reads this
    {
      SessionState(accessToken, refreshToken, expiresAt, symKey, vault, lastRefreshAt)
    }

    constructor (accessToken: string, refreshToken: string, lifetime: nat, symKey: SymmetricKey, now: int)
      ensures State() == SessionState(accessToken, refreshToken, now + lifetime, symKey, None, now)
    {
      this.accessToken, this.refreshToken, this.expiresAt := accessToken, refreshToken, now + lifetime;
      this.symKey, this.vault, this.lastRefreshAt := symKey, None, now;
    }

    /** The section that stores a token answer. */
    method StoreTokens(ch: Change, now: int)
      modifies this
      ensures State() == Stored(old(State()), ch, now)
    {
      accessToken := ch.accessToken;
      if ch.refreshToken.Some? {
        refreshToken := ch.refreshToken.value;
      }
      expiresAt := now + ch.lifetime;
      if ch.symKey.Some? {
        symKey := ch.symKey.value;
      }
    }

    /** The section that installs a decrypted cache. */
    method CommitCache(cache: VaultCache, now: int)
      modifies this`vault, this`lastRefreshAt
      ensures State() == Refreshed(old(State()), cache, now)
    {
      vault := Some(cache);
      lastRefreshAt := now;
    }

    method TryFetchSecrets(env: Env, reqs: seq<SecretRequest>) returns (r: FetchResult)
      requires vault.Some? ==> WellIndexed(vault.value)
      ensures if vault.None? then r == Err(NotInitialized) else Answers(env, vault.value, reqs, r)
    {
      hide LookupItem, IsSecret;
      if vault.None? {
        return Err(NotInitialized);
      }
      var cache := vault.value;
      var result: seq<string> := [];
      for i := 0 to |reqs|
        invariant |result| == i
        invariant forall j :: 0 <= j < i ==> Yields(env, cache, reqs[j], result[j])
      {
        var item := LookupItem(env, cache, reqs[i].name, reqs[i].vault);
        if item.Err? {
          assert FailsFirst(env, cache, reqs, i, item.error) by {
            assert forall j :: 0 <= j < i ==> Yields(env, cache, reqs[j], result[j]);
          }
          return Err(LookupFailed(item.error));
        }
        var v := ExtractSecret(item.value);
        result := result + [v];
      }
      r := Ok(result);
    }
  }
}
