/**
 The vault client as a step system (src/vault/mod.rs). Any number of callers of `fetch_secrets`,
 cache refreshers and token refreshers interleave over one session behind a readers-writer lock and
 a separate refresh mutex. One step is the code between two suspension points, one lookup of a fetch,
 or one field assignment under the write lock. Network replies and the clock are free, except that
 the clock never goes back.
 */
module Protocol {
  import opened Results
  import opened Bytes
  import opened Crypto
  import opened Vault
  import opened Lookup
  import opened Sessions

  const SECOND: int := 1_000_000_000

  /** The cooldown of on-demand refreshes, in clock ticks. */
  datatype Config = Config(env: Env, minRefreshInterval: nat)

  // ----- what the outside may answer -----

  datatype SyncReply = SyncOk(resp: SyncResponse) | Unauthorized | SyncError

  datatype TokenGrant = TokenGrant(accessToken: string, refreshToken: Option<string>, lifetime: nat)

  /** A login: the tokens and the wrapped key with the master key that unwraps it. */
  datatype LoginGrant = LoginGrant(accessToken: string, refreshToken: string, lifetime: nat, wrappedKey: string,
                                   master: seq<Byte>)

  datatype Reply =
    | NoReply
    | TokenReply(grant: Option<TokenGrant>)
    | LoginReply(login: Option<LoginGrant>)
    | SyncReplied(sync: SyncReply)
    | Decoded(cache: VaultCache)
    | Extracted(secret: string)

  // ----- program counters -----

  /** `do_refresh_or_reauth` and `re_authenticate`. */
  datatype TokenPc =
    | ReadRefreshToken
    | AwaitToken(refreshToken: string)
    | AwaitLogin
    | WantTokenWrite(ch: Change)
    | WritingToken(ch: Change, k: nat)

  /** `ensure_valid_token`. */
  datatype EnsurePc = ReadExpiry | CompareExpiry(expiresAt: int) | Renewing(t: TokenPc)

  /** `refresh_vault_cache`. */
  datatype RefreshPc =
    | Ensuring(e: EnsurePc)
    | ReadToken
    | ReadKey(token: string)
    | AwaitSync(token: string, key: SymmetricKey)
    | Reauthorizing(key: SymmetricKey, t: TokenPc)
    | RereadToken(key: SymmetricKey)
    | AwaitRetry(token: string, key: SymmetricKey)
    | Decrypting(resp: SyncResponse, key: SymmetricKey)
    | WantCommit(resp: SyncResponse, key: SymmetricKey, cache: VaultCache)
    | Committing(resp: SyncResponse, key: SymmetricKey, cache: VaultCache, stored: bool)

  /** `fetch_secrets`; `own` is the position in the log of the refresh this call made, if any. */
  datatype CallPc =
    | WantRead(own: Option<nat>)
    | Reading(own: Option<nat>, values: seq<string>)
    | WantMutex(e: LookupError)
    | CheckDue(e: LookupError)
    | Refreshing(e: LookupError, start: nat, r: RefreshPc)
    | Returned(result: FetchResult)

  /** A finished pass over the requests: the cache it read and what it gave. */
  datatype Pass = Pass(cache: VaultCache, result: FetchResult)

  datatype Proc =
    | Creator(r: RefreshPc)
    | Background(b: Option<RefreshPc>)
    | TokenKeeper(t: Option<EnsurePc>)
    | Caller(reqs: seq<SecretRequest>, c: CallPc, passes: seq<Pass>)

  // ----- shared state -----

  datatype Event =
    | Started(pid: nat, at: int)
    | Committed(pid: nat, at: int, onDemand: bool, resp: SyncResponse, key: SymmetricKey, cache: VaultCache)

  datatype Issued = Issued(accessToken: string, expiresAt: int)

  /** `log` and `issued` only record: refresh starts and commits, and token grants as stored. */
  datatype Shared = Shared(now: int, session: SessionState, readers: set<nat>, writer: Option<nat>, mutex: Option<nat>,
                           live: bool, log: seq<Event>, issued: seq<Issued>)

  datatype State = State(sh: Shared, procs: map<nat, Proc>)

  datatype Sub<T> = More(pc: T) | Finished(ok: bool)

  // ----- tokens -----

  function TokenStep(env: Env, sh: Shared, p: nat, pc: TokenPc, x: Reply): Option<(Shared, Sub<TokenPc>)> {
    match pc
    case ReadRefreshToken =>
      if sh.writer.Some? then None else Some((sh, More(AwaitToken(sh.session.refreshToken))))
    case AwaitToken(rt) =>
      if !x.TokenReply? || (rt == "" && x.grant.Some?) then None
      else if x.grant.None? then Some((sh, More(AwaitLogin)))
      else
        var g := x.grant.value;
        Some((sh, More(WantTokenWrite(Change(g.accessToken, g.refreshToken, g.lifetime, None)))))
    case AwaitLogin =>
      if !x.LoginReply? then None
      else if x.login.None? then Some((sh, Finished(false)))
      else
        var l := x.login.value;
        var key := DecryptSymmetricKey(env.prims, l.wrappedKey, l.master);
        if key.Err? then Some((sh, Finished(false)))
        else Some((sh, More(WantTokenWrite(Change(l.accessToken, Some(l.refreshToken), l.lifetime, Some(key.value))))))
    case WantTokenWrite(ch) =>
      if sh.writer.Some? || sh.readers != {} then None
      else Some((sh.(writer := Some(p)), More(WritingToken(ch, 0))))
    case WritingToken(ch, k) =>
      if k >= TOKEN_WRITES then None else
      var session := WriteToken(sh.session, ch, k, sh.now);
      var issued := if k == 2 then sh.issued + [Issued(ch.accessToken, session.expiresAt)] else sh.issued;
      if k + 1 < TOKEN_WRITES then Some((sh.(session := session, issued := issued), More(WritingToken(ch, k + 1))))
      else Some((sh.(session := session, issued := issued, writer := None), Finished(true)))
  }

  function EnsureStep(env: Env, sh: Shared, p: nat, pc: EnsurePc, x: Reply): Option<(Shared, Sub<EnsurePc>)> {
    match pc
    case ReadExpiry =>
      if sh.writer.Some? then None else Some((sh, More(CompareExpiry(sh.session.expiresAt))))
    case CompareExpiry(expiresAt) =>
      Some((sh, if sh.now + 60 * SECOND >= expiresAt then More(Renewing(ReadRefreshToken)) else Finished(true)))
    case Renewing(t) =>
      match TokenStep(env, sh, p, t, x)
      case None => None
      case Some((sh', More(t'))) => Some((sh', More(Renewing(t'))))
      case Some((sh', Finished(ok))) => Some((sh', Finished(ok)))
  }

  // ----- refreshing the cache -----

  ghost function RefreshStep(env: Env, sh: Shared, p: nat, onDemand: bool, pc: RefreshPc, x: Reply): Option<(Shared,
                             Sub<RefreshPc>)> {
    match pc
    case Ensuring(e) =>
      (match EnsureStep(env, sh, p, e, x)
       case None => None
       case Some((sh', More(e'))) => Some((sh', More(Ensuring(e'))))
       case Some((sh', Finished(ok))) => Some((sh', if ok then More(ReadToken) else Finished(false))))
    case ReadToken =>
      if sh.writer.Some? then None else Some((sh, More(ReadKey(sh.session.accessToken))))
    case ReadKey(token) =>
      if sh.writer.Some? then None else Some((sh, More(AwaitSync(token, sh.session.symKey))))
    case AwaitSync(_, key) =>
      if !x.SyncReplied? then None else
      (match x.sync
       case SyncOk(resp) => Some((sh, More(Decrypting(resp, key))))
       case Unauthorized => Some((sh, More(Reauthorizing(key, ReadRefreshToken))))
       case SyncError => Some((sh, Finished(false))))
    case Reauthorizing(key, t) =>
      (match TokenStep(env, sh, p, t, x)
       case None => None
       case Some((sh', More(t'))) => Some((sh', More(Reauthorizing(key, t'))))
       case Some((sh', Finished(ok))) => Some((sh', if ok then More(RereadToken(key)) else Finished(false))))
    case RereadToken(key) =>
      if sh.writer.Some? then None else Some((sh, More(AwaitRetry(sh.session.accessToken, key))))
    case AwaitRetry(_, key) =>
      if !x.SyncReplied? then None
      else if x.sync.SyncOk? then Some((sh, More(Decrypting(x.sync.resp, key))))
      else Some((sh, Finished(false)))
    case Decrypting(resp, key) =>
      if !x.Decoded? || !IsVaultOf(env, resp, key, x.cache) then None
      else Some((sh, More(WantCommit(resp, key, x.cache))))
    case WantCommit(resp, key, cache) =>
      if sh.writer.Some? || sh.readers != {} then None
      else Some((sh.(writer := Some(p)), More(Committing(resp, key, cache, false))))
    case Committing(resp, key, cache, false) =>
      Some((sh.(session := sh.session.(vault := Some(cache))), More(Committing(resp, key, cache, true))))
    case Committing(resp, key, cache, true) =>
      Some((sh.(session := sh.session.(lastRefreshAt := sh.now), writer := None,
                log := sh.log + [Committed(p, sh.now, onDemand, resp, key, cache)]),
            Finished(true)))
  }

  // ----- fetching -----

  /** The step that looks up the next request, or ends the pass, while the read lock is held. */
  ghost function ReadStep(cfg: Config, sh: Shared, p: nat, me: Proc, x: Reply): Option<(Shared, Proc)>
    requires me.Caller? && me.c.Reading?
    requires sh.session.vault.Some? ==> WellIndexed(sh.session.vault.value)
  {
    var i, done := |me.c.values|, sh.(readers := sh.readers - {p});
    if sh.session.vault.None? then Some((done, me.(c := Returned(Err(NotInitialized))))) else
    var cache := sh.session.vault.value;
    if i >= |me.reqs| then Some((done, Caller(me.reqs, Returned(Ok(me.c.values)), me.passes + [Pass(cache,
        Ok(me.c.values))])))
    else match LookupItem(cfg.env, cache, me.reqs[i].name, me.reqs[i].vault)
      case Ok(item) =>
        if !x.Extracted? || !IsSecret(item, x.secret) then None
        else Some((sh, me.(c := Reading(me.c.own, me.c.values + [x.secret]))))
      case Err(e) =>
        var r: FetchResult := Err(LookupFailed(e));
        Some((done, Caller(me.reqs,
                           if me.c.own.None? && IsStaleMiss(e) then WantMutex(e) else Returned(r),
                           me.passes + [Pass(cache, r)])))
  }

  ghost function CallStep(cfg: Config, sh: Shared, p: nat, me: Proc, x: Reply): Option<(Shared, Proc)>
    requires me.Caller?
    requires sh.session.vault.Some? ==> WellIndexed(sh.session.vault.value)
  {
    match me.c
    case WantRead(own) =>
      if sh.writer.Some? then None else Some((sh.(readers := sh.readers + {p}), me.(c := Reading(own, []))))
    case Reading(_, _) => ReadStep(cfg, sh, p, me, x)
    case WantMutex(e) =>
      if sh.mutex.Some? then None else Some((sh.(mutex := Some(p)), me.(c := CheckDue(e))))
    case CheckDue(e) =>
      if sh.writer.Some? then None
      else if sh.now - sh.session.lastRefreshAt < cfg.minRefreshInterval then
        Some((sh.(mutex := None), me.(c := Returned(Err(LookupFailed(e))))))
      else
        Some((sh.(log := sh.log + [Started(p, sh.now)]), me.(c := Refreshing(e, |sh.log|, Ensuring(ReadExpiry)))))
    case Refreshing(e, start, r) =>
      (match RefreshStep(cfg.env, sh, p, true, r, x)
       case None => None
       case Some((sh', More(r'))) => Some((sh', me.(c := Refreshing(e, start, r'))))
       case Some((sh', Finished(ok))) =>
         Some((sh'.(mutex := None),
               me.(c := if ok then WantRead(Some(|sh.log|)) else Returned(Err(LookupFailed(e)))))))
    case Returned(_) => None
  }

  // ----- all processes -----

  /** A step of process `p`; a process whose refresh ends goes idle, and the creator's success opens the client. */
  ghost function ProcStep(cfg: Config, sh: Shared, p: nat, me: Proc, x: Reply): Option<(Shared, Proc)>
    requires sh.session.vault.Some? ==> WellIndexed(sh.session.vault.value)
  {
    match me
    case Creator(r) =>
      (match RefreshStep(cfg.env, sh, p, false, r, x)
       case None => None
       case Some((sh', More(r'))) => Some((sh', Creator(r')))
       case Some((sh', Finished(ok))) => if ok then Some((sh'.(live := true), Background(None))) else None)
    case Background(None) => Some((sh, Background(Some(Ensuring(ReadExpiry)))))
    case Background(Some(r)) =>
      (match RefreshStep(cfg.env, sh, p, false, r, x)
       case None => None
       case Some((sh', More(r'))) => Some((sh', Background(Some(r'))))
       case Some((sh', Finished(_))) => Some((sh', Background(None))))
    case TokenKeeper(None) => Some((sh, TokenKeeper(Some(ReadExpiry))))
    case TokenKeeper(Some(e)) =>
      (match EnsureStep(cfg.env, sh, p, e, x)
       case None => None
       case Some((sh', More(e'))) => Some((sh', TokenKeeper(Some(e'))))
       case Some((sh', Finished(_))) => Some((sh', TokenKeeper(None))))
    case Caller(_, _, _) => CallStep(cfg, sh, p, me, x)
  }

  /** A process as it is when it starts, once the client exists. */
  predicate Fresh(me: Proc) {
    match me
    case Creator(_) => false
    case Background(b) => b.None?
    case TokenKeeper(t) => t.None?
    case Caller(_, c, passes) => c == WantRead(None) && passes == []
  }

  datatype Action = Tick(ticks: nat) | Spawn(p: nat, me: Proc) | Run(p: nat, x: Reply)

  ghost predicate Step(cfg: Config, s: State, a: Action, s': State)
    requires s.sh.session.vault.Some? ==> WellIndexed(s.sh.session.vault.value)
  {
    match a
    case Tick(ticks) => s' == s.(sh := s.sh.(now := s.sh.now + ticks))
    case Spawn(p, me) => s.sh.live && p !in s.procs && Fresh(me) && s' == s.(procs := s.procs[p := me])
    case Run(p, x) =>
      && p in s.procs
      && var r := ProcStep(cfg, s.sh, p, s.procs[p], x);
         r.Some? && s' == State(r.value.0, s.procs[p := r.value.1])
  }

  ghost predicate HasKeys(k: SymmetricKey) {
    |k.encKey| == 32 && |k.macKey| == 32
  }

  /** The session right after a login whose key unwrapped. */
  ghost predicate LoggedIn(cfg: Config, sh: Shared, l: LoginGrant) {
    var key := DecryptSymmetricKey(cfg.env.prims, l.wrappedKey, l.master);
    && key.Ok?
    && sh.session == SessionState(l.accessToken, l.refreshToken, sh.now + l.lifetime, key.value, None, sh.now)
    && sh.issued == [Issued(l.accessToken, sh.now + l.lifetime)]
  }

  /** `VaultClient::new` after a login: no cache yet, and its creator about to make the first sync. */
  ghost predicate Init(cfg: Config, s: State) {
    && (exists l: LoginGrant :: LoggedIn(cfg, s.sh, l))
    && s.sh.readers == {} && s.sh.writer.None? && s.sh.mutex.None? && !s.sh.live && s.sh.log == []
    && s.procs == map[0 := Creator(Ensuring(ReadExpiry))]
  }
}
