/** What every step of the vault client keeps, for the shared state and for each process. */
module Invariants {
  import opened Results
  import opened CipherStrings
  import opened Crypto
  import opened Vault
  import opened Lookup
  import opened Sessions
  import opened Protocol

  // ----- the log -----

  predicate OnDemandCommit(e: Event) {
    e.Committed? && e.onDemand
  }

  /** A refresh start comes at least the cooldown after every commit before it. */
  predicate CooledDown(cfg: Config, log: seq<Event>) {
    forall i, j :: 0 <= i < j < |log| && log[i].Committed? && log[j].Started? ==>
      log[j].at >= log[i].at + cfg.minRefreshInterval
  }

  /** On-demand commits are at least the cooldown apart. */
  predicate Spaced(cfg: Config, log: seq<Event>) {
    forall i, j :: 0 <= i < j < |log| && OnDemandCommit(log[i]) && OnDemandCommit(log[j]) ==>
      log[j].at >= log[i].at + cfg.minRefreshInterval
  }

  predicate Timed(log: seq<Event>, now: int) {
    && (forall i :: 0 <= i < |log| ==> log[i].at <= now)
    && (forall i, j :: 0 <= i < j < |log| ==> log[i].at <= log[j].at)
  }

  ghost predicate LogInv(cfg: Config, log: seq<Event>, now: int, lastRefreshAt: int) {
    && Timed(log, now)
    && CooledDown(cfg, log)
    && Spaced(cfg, log)
    && lastRefreshAt <= now
    && (forall i :: 0 <= i < |log| && log[i].Committed? ==> log[i].at <= lastRefreshAt)
    && (forall i :: 0 <= i < |log| && log[i].Committed? ==>
          HasKeys(log[i].key) && IsVaultOf(cfg.env, log[i].resp, log[i].key, log[i].cache))
  }

  /** `p` started its refresh at log position `start`, and no on-demand refresh has committed since. */
  predicate OwnStart(log: seq<Event>, start: nat, p: nat) {
    && start < |log| && log[start].Started? && log[start].pid == p
    && forall i :: start < i < |log| ==> !OnDemandCommit(log[i])
  }

  predicate OwnCommit(log: seq<Event>, i: nat, p: nat) {
    i < |log| && OnDemandCommit(log[i]) && log[i].pid == p
  }

  lemma LogStart(cfg: Config, log: seq<Event>, now: int, last: int, p: nat)
    requires LogInv(cfg, log, now, last) && now - last >= cfg.minRefreshInterval
    ensures LogInv(cfg, log + [Started(p, now)], now, last)
  {
    hide IsVaultOf;
  }

  lemma LogCommit(cfg: Config, log: seq<Event>, now: int, last: int, e: Event, start: nat)
    requires LogInv(cfg, log, now, last)
    requires e.Committed? && e.at == now && HasKeys(e.key) && IsVaultOf(cfg.env, e.resp, e.key, e.cache)
    requires e.onDemand ==> OwnStart(log, start, e.pid)
    ensures LogInv(cfg, log + [e], now, now)
  {
    hide IsVaultOf;
    if e.onDemand {
      forall i | 0 <= i < |log| && OnDemandCommit(log[i]) ensures now >= log[i].at + cfg.minRefreshInterval {
        assert i < start;
      }
    }
  }

  // ----- the shared state -----

  /** The access token and its expiry were stored from the same grant. */
  ghost predicate Paired(sh: Shared) {
    exists i :: 0 <= i < |sh.issued| && sh.issued[i] == Issued(sh.session.accessToken, sh.session.expiresAt)
  }

  predicate IsLastCommit(log: seq<Event>, i: nat) {
    i < |log| && log[i].Committed? && forall j :: i < j < |log| ==> !log[j].Committed?
  }

  /** The cache held is that of the last recorded commit. */
  ghost predicate Backed(sh: Shared) {
    sh.session.vault.Some? ==> exists i: nat :: IsLastCommit(sh.log, i) && sh.log[i].cache == sh.session.vault.value
  }

  ghost predicate SharedInv(cfg: Config, sh: Shared) {
    && LogInv(cfg, sh.log, sh.now, sh.session.lastRefreshAt)
    && (sh.writer.Some? ==> sh.readers == {})
    && (sh.live ==> sh.session.vault.Some?)
    && (sh.session.vault.Some? ==> WellIndexed(sh.session.vault.value))
    && HasKeys(sh.session.symKey)
    && (sh.writer.None? ==> Paired(sh) && Backed(sh))
  }

  predicate LockMove(before: Option<nat>, after: Option<nat>, p: nat) {
    after == before || (before.None? && after == Some(p)) || (before == Some(p) && after.None?)
  }

  /** What a step of `p` can change for everyone else. */
  ghost predicate Effect(sh: Shared, sh': Shared, p: nat) {
    && sh'.now == sh.now
    && sh'.readers - {p} == sh.readers - {p}
    && LockMove(sh.writer, sh'.writer, p) && LockMove(sh.mutex, sh'.mutex, p)
    && (sh'.session != sh.session ==> sh.writer == Some(p))
    && sh.session.lastRefreshAt <= sh'.session.lastRefreshAt
    && (sh.session.vault.Some? ==> sh'.session.vault.Some?)
    && (sh.live ==> sh'.live)
    && sh.issued <= sh'.issued
    && (sh'.log == sh.log || LogMove(sh, sh', p))
  }

  ghost predicate LogMove(sh: Shared, sh': Shared, p: nat) {
    && |sh'.log| == |sh.log| + 1 && sh'.log[..|sh.log|] == sh.log
    && (OnDemandCommit(sh'.log[|sh.log|]) ==> sh.mutex == Some(p))
    && (sh'.log[|sh.log|].Committed? ==> sh.writer == Some(p))
  }

  // ----- one process -----

  ghost predicate TokenLocal(sh: Shared, p: nat, t: TokenPc) {
    && (sh.writer == Some(p) <==> t.WritingToken?)
    && match t
       case WantTokenWrite(ch) => ch.symKey.Some? ==> HasKeys(ch.symKey.value)
       case WritingToken(ch, k) =>
         && k < TOKEN_WRITES
         && (ch.symKey.Some? ==> HasKeys(ch.symKey.value))
         && Backed(sh)
         && if k == 0 || k == 3 then Paired(sh) else sh.session.accessToken == ch.accessToken
       case _ => true
  }

  ghost predicate EnsureLocal(sh: Shared, p: nat, e: EnsurePc) {
    match e
    case Renewing(t) => TokenLocal(sh, p, t)
    case _ => sh.writer != Some(p)
  }

  ghost predicate RefreshLocal(env: Env, sh: Shared, p: nat, r: RefreshPc) {
    match r
    case Ensuring(e) => EnsureLocal(sh, p, e)
    case Reauthorizing(key, t) => HasKeys(key) && TokenLocal(sh, p, t)
    case Committing(resp, key, cache, stored) =>
      && sh.writer == Some(p) && HasKeys(key) && IsVaultOf(env, resp, key, cache) && Paired(sh)
      && (if stored then sh.session.vault == Some(cache) else Backed(sh))
    case WantCommit(resp, key, cache) => sh.writer != Some(p) && HasKeys(key) && IsVaultOf(env, resp, key, cache)
    case AwaitSync(_, key) => sh.writer != Some(p) && HasKeys(key)
    case AwaitRetry(_, key) => sh.writer != Some(p) && HasKeys(key)
    case RereadToken(key) => sh.writer != Some(p) && HasKeys(key)
    case Decrypting(_, key) => sh.writer != Some(p) && HasKeys(key)
    case _ => sh.writer != Some(p)
  }

  /** Every pass gave an answer that its cache allows. */
  ghost predicate PassesInv(env: Env, reqs: seq<SecretRequest>, passes: seq<Pass>) {
    forall i :: 0 <= i < |passes| ==>
      WellIndexed(passes[i].cache) && Answers(env, passes[i].cache, reqs, passes[i].result)
  }

  /** The one pass made so far missed with `e`, and `e` is worth a refresh. */
  predicate Missed(passes: seq<Pass>, e: LookupError) {
    |passes| == 1 && passes[0].result == Err(LookupFailed(e)) && IsStaleMiss(e)
  }

  predicate StaleResult(r: FetchResult) {
    r.Err? && r.error.LookupFailed? && IsStaleMiss(r.error.e)
  }

  /** A call returns what its last pass gave; it makes a second pass only after a stale miss. */
  predicate Concluded(passes: seq<Pass>, r: FetchResult) {
    1 <= |passes| <= 2 && r == passes[|passes| - 1].result && (|passes| == 2 ==> StaleResult(passes[0].result))
  }

  ghost predicate ReadSoFar(cfg: Config, sh: Shared, reqs: seq<SecretRequest>, values: seq<string>) {
    sh.session.vault.Some? && WellIndexed(sh.session.vault.value) ==>
      && |values| <= |reqs|
      && forall i :: 0 <= i < |values| ==> Yields(cfg.env, sh.session.vault.value, reqs[i], values[i])
  }

  predicate RetryInv(sh: Shared, p: nat, own: Option<nat>, passes: seq<Pass>) {
    match own
    case None => passes == []
    case Some(i) => OwnCommit(sh.log, i, p) && |passes| == 1 && StaleResult(passes[0].result)
  }

  ghost predicate CallLocal(cfg: Config, sh: Shared, p: nat, me: Proc)
    requires me.Caller?
  {
    && PassesInv(cfg.env, me.reqs, me.passes)
    && (p in sh.readers <==> me.c.Reading?)
    && (sh.mutex == Some(p) <==> me.c.CheckDue? || me.c.Refreshing?)
    && (!me.c.Refreshing? ==> sh.writer != Some(p))
    && match me.c
       case WantRead(own) => RetryInv(sh, p, own, me.passes)
       case Reading(own, values) => RetryInv(sh, p, own, me.passes) && ReadSoFar(cfg, sh, me.reqs, values)
       case WantMutex(e) => Missed(me.passes, e)
       case CheckDue(e) => Missed(me.passes, e)
       case Refreshing(e, start, r) =>
         Missed(me.passes, e) && OwnStart(sh.log, start, p) && RefreshLocal(cfg.env, sh, p, r)
       case Returned(result) => Concluded(me.passes, result)
  }

  ghost predicate ProcLocal(cfg: Config, sh: Shared, p: nat, me: Proc) {
    && (!me.Creator? ==> sh.live)
    && (!me.Caller? ==> p !in sh.readers && sh.mutex != Some(p))
    && match me
       case Creator(r) => RefreshLocal(cfg.env, sh, p, r)
       case Background(b) => if b.Some? then RefreshLocal(cfg.env, sh, p, b.value) else sh.writer != Some(p)
       case TokenKeeper(t) => if t.Some? then EnsureLocal(sh, p, t.value) else sh.writer != Some(p)
       case Caller(_, _, _) => CallLocal(cfg, sh, p, me)
  }

  ghost predicate Inv(cfg: Config, s: State) {
    && SharedInv(cfg, s.sh)
    && s.sh.readers <= s.procs.Keys
    && (s.sh.writer.Some? ==> s.sh.writer.value in s.procs)
    && (s.sh.mutex.Some? ==> s.sh.mutex.value in s.procs)
    && forall p :: p in s.procs ==> ProcLocal(cfg, s.sh, p, s.procs[p])
  }

  // ----- a process is not disturbed by the others -----

  lemma PairedFrame(sh: Shared, sh': Shared)
    requires sh.issued <= sh'.issued
    requires sh'.session.accessToken == sh.session.accessToken && sh'.session.expiresAt == sh.session.expiresAt
    ensures Paired(sh) ==> Paired(sh')
  {
    if Paired(sh) {
      var i :| 0 <= i < |sh.issued| && sh.issued[i] == Issued(sh.session.accessToken, sh.session.expiresAt);
      assert sh'.issued[i] == sh.issued[i];
    }
  }

  /** The second log extends the first by no commit. */
  predicate NoCommit(log: seq<Event>, log': seq<Event>) {
    && |log| <= |log'| && log'[..|log|] == log
    && forall i :: |log| <= i < |log'| ==> !log'[i].Committed?
  }

  lemma BackedFrame(sh: Shared, sh': Shared)
    requires sh'.session.vault == sh.session.vault && NoCommit(sh.log, sh'.log)
    ensures Backed(sh) ==> Backed(sh')
  {
    if Backed(sh) && sh.session.vault.Some? {
      var i: nat :| IsLastCommit(sh.log, i) && sh.log[i].cache == sh.session.vault.value;
      assert sh'.log[i] == sh.log[i];
      assert IsLastCommit(sh'.log, i);
    }
  }

  /** A step that leaves the session alone keeps what is known about it. */
  lemma SessionFrame(sh: Shared, sh': Shared)
    requires sh.issued <= sh'.issued && NoCommit(sh.log, sh'.log)
    requires sh'.session == sh.session
    ensures Paired(sh) ==> Paired(sh')
    ensures Backed(sh) ==> Backed(sh')
  {
    PairedFrame(sh, sh');
    BackedFrame(sh, sh');
  }

  lemma TokenFrame(sh: Shared, sh': Shared, p: nat, q: nat, t: TokenPc)
    requires p != q && TokenLocal(sh, q, t) && Effect(sh, sh', p)
    ensures TokenLocal(sh', q, t)
  {
    if t.WritingToken? {
      SessionFrame(sh, sh');
    }
  }

  lemma RefreshFrame(env: Env, sh: Shared, sh': Shared, p: nat, q: nat, r: RefreshPc)
    requires p != q && RefreshLocal(env, sh, q, r) && Effect(sh, sh', p)
    ensures RefreshLocal(env, sh', q, r)
  {
    hide IsVaultOf;
    match r
    case Ensuring(Renewing(t)) => TokenFrame(sh, sh', p, q, t);
    case Reauthorizing(_, t) => TokenFrame(sh, sh', p, q, t);
    case Committing(_, _, _, _) => SessionFrame(sh, sh');
    case _ =>
  }

  lemma ProcFrame(cfg: Config, sh: Shared, sh': Shared, p: nat, q: nat, me: Proc)
    requires p != q && SharedInv(cfg, sh) && ProcLocal(cfg, sh, q, me) && Effect(sh, sh', p)
    ensures ProcLocal(cfg, sh', q, me)
  {
    hide IsVaultOf, LogInv, Yields, PassesInv, Paired, Backed, WellIndexed, RefreshLocal, TokenLocal;
    assert q in sh'.readers <==> q in sh'.readers - {p};
    assert q in sh.readers <==> q in sh.readers - {p};
    match me
    case Creator(r) => RefreshFrame(cfg.env, sh, sh', p, q, r);
    case Background(b) => if b.Some? { RefreshFrame(cfg.env, sh, sh', p, q, b.value); }
    case TokenKeeper(t) => if t.Some? && t.value.Renewing? { TokenFrame(sh, sh', p, q, t.value.t); }
    case Caller(_, c, _) =>
      assert forall i :: 0 <= i < |sh.log| ==> sh'.log[i] == sh.log[i];
      if c.Refreshing? {
        RefreshFrame(cfg.env, sh, sh', p, q, c.r);
      }
  }

  // ----- steps keep the invariant -----

  /** A token step: log, mutex and readers stay, and the write lock is given back when it ends. */
  lemma TokenStepKeeps(cfg: Config, sh: Shared, p: nat, pc: TokenPc, x: Reply)
    requires SharedInv(cfg, sh) && TokenLocal(sh, p, pc) && TokenStep(cfg.env, sh, p, pc, x).Some?
    ensures var (sh', r) := TokenStep(cfg.env, sh, p, pc, x).value;
            && Effect(sh, sh', p) && SharedInv(cfg, sh')
            && sh'.log == sh.log && sh'.mutex == sh.mutex && sh'.readers == sh.readers && sh'.live == sh.live
            && (r.More? ==> TokenLocal(sh', p, r.pc))
            && (r.Finished? ==> sh'.writer != Some(p))
  {
    hide LogInv, WellIndexed, DecryptSymmetricKey, Backed;
    match pc
    case AwaitLogin =>
      if x.login.Some? && DecryptSymmetricKey(cfg.env.prims, x.login.value.wrappedKey, x.login.value.master).Ok? {
        SymmetricKeyExact(cfg.env.prims, x.login.value.wrappedKey, x.login.value.master,
                          DecryptSymmetricKey(cfg.env.prims, x.login.value.wrappedKey, x.login.value.master).value);
      }
    case WritingToken(ch, k) =>
      var sh' := TokenStep(cfg.env, sh, p, pc, x).value.0;
      BackedFrame(sh, sh');
      if k == 2 {
        assert sh'.issued[|sh.issued|] == Issued(sh'.session.accessToken, sh'.session.expiresAt);
      } else if k == 3 {
        PairedFrame(sh, sh');
      }
    case WantTokenWrite(_) => SessionFrame(sh, TokenStep(cfg.env, sh, p, pc, x).value.0);
    case _ =>
  }

  lemma EnsureStepKeeps(cfg: Config, sh: Shared, p: nat, pc: EnsurePc, x: Reply)
    requires SharedInv(cfg, sh) && EnsureLocal(sh, p, pc) && EnsureStep(cfg.env, sh, p, pc, x).Some?
    ensures var (sh', r) := EnsureStep(cfg.env, sh, p, pc, x).value;
            && Effect(sh, sh', p) && SharedInv(cfg, sh')
            && sh'.log == sh.log && sh'.mutex == sh.mutex && sh'.readers == sh.readers && sh'.live == sh.live
            && (r.More? ==> EnsureLocal(sh', p, r.pc))
            && (r.Finished? ==> sh'.writer != Some(p))
  {
    hide LogInv, WellIndexed, TokenStep, Paired, Backed;
    if pc.Renewing? {
      TokenStepKeeps(cfg, sh, p, pc.t, x);
    }
  }

  predicate Recorded(sh: Shared, sh': Shared, p: nat, onDemand: bool) {
    && |sh'.log| == |sh.log| + 1
    && sh'.log[|sh.log|].Committed? && sh'.log[|sh.log|].pid == p && sh'.log[|sh.log|].onDemand == onDemand
  }

  /** A refresh step: only its last one, the commit, extends the log. */
  lemma RefreshStepKeeps(cfg: Config, sh: Shared, p: nat, onDemand: bool, start: nat, pc: RefreshPc, x: Reply)
    requires SharedInv(cfg, sh) && RefreshLocal(cfg.env, sh, p, pc)
    requires RefreshStep(cfg.env, sh, p, onDemand, pc, x).Some?
    requires onDemand ==> OwnStart(sh.log, start, p) && sh.mutex == Some(p)
    ensures var (sh', r) := RefreshStep(cfg.env, sh, p, onDemand, pc, x).value;
            && Effect(sh, sh', p) && SharedInv(cfg, sh')
            && sh'.mutex == sh.mutex && sh'.readers == sh.readers && sh'.live == sh.live
            && (r.More? ==> sh'.log == sh.log && RefreshLocal(cfg.env, sh', p, r.pc))
            && (r.Finished? ==> sh'.writer != Some(p))
            && (r == Finished(true) ==> sh'.session.vault.Some? && Recorded(sh, sh', p, onDemand))
            && (r == Finished(false) ==> sh'.log == sh.log)
  {
    hide LogInv, WellIndexed, TokenStep, EnsureStep, IsVaultOf, Paired, Backed;
    match pc
    case Ensuring(e) => EnsureStepKeeps(cfg, sh, p, e, x);
    case Reauthorizing(_, t) => TokenStepKeeps(cfg, sh, p, t, x);
    case WantCommit(_, _, _) => SessionFrame(sh, RefreshStep(cfg.env, sh, p, onDemand, pc, x).value.0);
    case Committing(_, _, _, _) => CommitStepKeeps(cfg, sh, p, onDemand, start, pc, x);
    case _ =>
  }

  lemma CommitStepKeeps(cfg: Config, sh: Shared, p: nat, onDemand: bool, start: nat, pc: RefreshPc, x: Reply)
    requires pc.Committing? && SharedInv(cfg, sh) && RefreshLocal(cfg.env, sh, p, pc)
    requires onDemand ==> OwnStart(sh.log, start, p) && sh.mutex == Some(p)
    ensures var (sh', r) := RefreshStep(cfg.env, sh, p, onDemand, pc, x).value;
            && Effect(sh, sh', p) && SharedInv(cfg, sh')
            && (r.More? ==> RefreshLocal(cfg.env, sh', p, r.pc))
  {
    hide LogInv, IsVaultOf;
    var sh' := RefreshStep(cfg.env, sh, p, onDemand, pc, x).value.0;
    PairedFrame(sh, sh');
    DecryptedIsWellIndexed(cfg.env, pc.resp, pc.key, pc.cache);
    if pc.stored {
      assert IsLastCommit(sh'.log, |sh.log|) && sh'.log[|sh.log|].cache == sh'.session.vault.value;
      LogCommit(cfg, sh.log, sh.now, sh.session.lastRefreshAt, sh'.log[|sh.log|], start);
      assert sh.session.lastRefreshAt <= sh.now by { LogBound(cfg, sh.log, sh.now, sh.session.lastRefreshAt); }
    } else {
      assert sh'.session.lastRefreshAt == sh.session.lastRefreshAt;
    }
  }

  lemma LogBound(cfg: Config, log: seq<Event>, now: int, last: int)
    requires LogInv(cfg, log, now, last)
    ensures last <= now
  {
  }

  lemma ReadStepKeeps(cfg: Config, sh: Shared, p: nat, me: Proc, x: Reply)
    requires SharedInv(cfg, sh) && ProcLocal(cfg, sh, p, me) && me.Caller? && me.c.Reading?
    requires ReadStep(cfg, sh, p, me, x).Some?
    ensures var (sh', me') := ReadStep(cfg, sh, p, me, x).value;
            Effect(sh, sh', p) && SharedInv(cfg, sh') && ProcLocal(cfg, sh', p, me')
  {
    hide LogInv, IsVaultOf, LookupItem, IsSecret;
    var (sh', me') := ReadStep(cfg, sh, p, me, x).value;
    SessionFrame(sh, sh');
    var cache, i := sh.session.vault.value, |me.c.values|;
    if |me'.passes| > |me.passes| {
      var r := me'.passes[|me.passes|].result;
      if r.Err? {
        assert FailsFirst(cfg.env, cache, me.reqs, i, r.error.e) by {
          assert forall j :: 0 <= j < i ==> Yields(cfg.env, cache, me.reqs[j], me.c.values[j]);
        }
      }
      assert Answers(cfg.env, cache, me.reqs, r);
    }
  }

  lemma CallStepKeeps(cfg: Config, sh: Shared, p: nat, me: Proc, x: Reply)
    requires SharedInv(cfg, sh) && ProcLocal(cfg, sh, p, me) && me.Caller? && CallStep(cfg, sh, p, me, x).Some?
    ensures var (sh', me') := CallStep(cfg, sh, p, me, x).value;
            Effect(sh, sh', p) && SharedInv(cfg, sh') && ProcLocal(cfg, sh', p, me')
  {
    hide LogInv, IsVaultOf, Answers, Yields, WellIndexed, RefreshStep, RefreshLocal, ReadStep, PassesInv, Paired,
         Backed;
    var (sh', me') := CallStep(cfg, sh, p, me, x).value;
    match me.c
    case Reading(_, _) => ReadStepKeeps(cfg, sh, p, me, x);
    case CheckDue(e) =>
      SessionFrame(sh, sh');
      if me'.c.Refreshing? {
        LogStart(cfg, sh.log, sh.now, sh.session.lastRefreshAt, p);
        assert RefreshLocal(cfg.env, sh', p, me'.c.r) by { StartLocal(cfg.env, sh', p); }
      }
    case Refreshing(e, start, r) =>
      RefreshStepKeeps(cfg, sh, p, true, start, r, x);
      SessionFrame(RefreshStep(cfg.env, sh, p, true, r, x).value.0, sh');
    case _ => SessionFrame(sh, sh');
  }

  lemma StartLocal(env: Env, sh: Shared, p: nat)
    requires sh.writer != Some(p)
    ensures RefreshLocal(env, sh, p, Ensuring(ReadExpiry))
  {
  }

  lemma ProcStepKeeps(cfg: Config, sh: Shared, p: nat, me: Proc, x: Reply)
    requires SharedInv(cfg, sh) && ProcLocal(cfg, sh, p, me) && ProcStep(cfg, sh, p, me, x).Some?
    ensures var (sh', me') := ProcStep(cfg, sh, p, me, x).value;
            Effect(sh, sh', p) && SharedInv(cfg, sh') && ProcLocal(cfg, sh', p, me')
  {
    hide LogInv, IsVaultOf, WellIndexed, RefreshStep, RefreshLocal, EnsureStep, CallStep, CallLocal, Paired, Backed;
    match me
    case Creator(r) =>
      RefreshStepKeeps(cfg, sh, p, false, 0, r, x);
      SessionFrame(RefreshStep(cfg.env, sh, p, false, r, x).value.0, ProcStep(cfg, sh, p, me, x).value.0);
    case Background(None) => StartLocal(cfg.env, sh, p);
    case Background(Some(r)) => RefreshStepKeeps(cfg, sh, p, false, 0, r, x);
    case TokenKeeper(None) =>
    case TokenKeeper(Some(e)) => EnsureStepKeeps(cfg, sh, p, e, x);
    case Caller(_, _, _) => CallStepKeeps(cfg, sh, p, me, x);
  }

  lemma FreshLocal(cfg: Config, sh: Shared, p: nat, me: Proc)
    requires sh.live && Fresh(me) && p !in sh.readers && sh.writer != Some(p) && sh.mutex != Some(p)
    ensures ProcLocal(cfg, sh, p, me)
  {
  }

  lemma TickShared(cfg: Config, sh: Shared, ticks: nat)
    requires SharedInv(cfg, sh)
    ensures SharedInv(cfg, sh.(now := sh.now + ticks))
  {
    hide IsVaultOf, WellIndexed, Paired, Backed;
    SessionFrame(sh, sh.(now := sh.now + ticks));
  }

  lemma TickLocal(cfg: Config, sh: Shared, p: nat, me: Proc, ticks: nat)
    requires ProcLocal(cfg, sh, p, me)
    ensures ProcLocal(cfg, sh.(now := sh.now + ticks), p, me)
  {
    hide IsVaultOf, WellIndexed, Yields, PassesInv, Paired, Backed;
    SessionFrame(sh, sh.(now := sh.now + ticks));
  }

  lemma TickKeeps(cfg: Config, s: State, ticks: nat)
    requires Inv(cfg, s)
    ensures Inv(cfg, s.(sh := s.sh.(now := s.sh.now + ticks)))
  {
    hide SharedInv, ProcLocal;
    TickShared(cfg, s.sh, ticks);
    forall p | p in s.procs ensures ProcLocal(cfg, s.sh.(now := s.sh.now + ticks), p, s.procs[p]) {
      TickLocal(cfg, s.sh, p, s.procs[p], ticks);
    }
  }

  /** Every step keeps the invariant. */
  lemma StepKeeps(cfg: Config, s: State, a: Action, s': State)
    requires Inv(cfg, s) && Step(cfg, s, a, s')
    ensures Inv(cfg, s')
    ensures a.Run? ==> Effect(s.sh, s'.sh, a.p)
  {
    hide SharedInv, ProcLocal, ProcStep, WellIndexed;
    match a
    case Tick(ticks) => TickKeeps(cfg, s, ticks);
    case Spawn(p, me) => FreshLocal(cfg, s.sh, p, me);
    case Run(p, x) =>
      InvIndexed(cfg, s);
      ProcStepKeeps(cfg, s.sh, p, s.procs[p], x);
      forall q | q in s'.procs && q != p ensures ProcLocal(cfg, s'.sh, q, s'.procs[q]) {
        ProcFrame(cfg, s.sh, s'.sh, p, q, s.procs[q]);
      }
      forall q | q in s'.sh.readers ensures q in s'.procs {
        assert q == p || q in s'.sh.readers - {p};
      }
  }

  lemma InvIndexed(cfg: Config, s: State)
    requires Inv(cfg, s)
    ensures s.sh.session.vault.Some? ==> WellIndexed(s.sh.session.vault.value)
  {
  }

  lemma InitHolds(cfg: Config, s: State)
    requires Init(cfg, s)
    ensures Inv(cfg, s)
  {
    hide DecryptSymmetricKey, Parse, Decrypted, StretchKey;
    var l: LoginGrant :| LoggedIn(cfg, s.sh, l);
    SymmetricKeyExact(cfg.env.prims, l.wrappedKey, l.master, s.sh.session.symKey);
    assert s.sh.issued[0] == Issued(s.sh.session.accessToken, s.sh.session.expiresAt);
  }
}
