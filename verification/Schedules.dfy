/** Pieces of runs of the vault client, to build concrete runs from (src/vault/mod.rs:137-245). */
module Schedules {
  import opened Results
  import opened Bytes
  import opened Crypto
  import opened Vault
  import opened Lookup
  import opened Sessions
  import opened Protocol
  import opened Invariants
  import opened Runs
  import opened Guarantees
  import opened Calls

  lemma Extend(cfg: Config, run: seq<State>, acts: seq<Action>, a: Action, s: State)
    requires IsRun(cfg, run, acts) && Indexed(run[|run| - 1]) && Step(cfg, run[|run| - 1], a, s)
    ensures IsRun(cfg, run + [s], acts + [a])
  {
    hide Init, Step, Indexed;
    forall i | 0 <= i < |run + [s]| ensures LegalAt(cfg, run + [s], acts + [a], i) {
      if i < |run| {
        assert LegalAt(cfg, run, acts, i);
      }
    }
  }

  /** The process with its refresh at `r`. */
  function Wrapped(me: Proc, r: RefreshPc): Proc
    requires RefreshOf(me).Some?
  {
    match me
    case Creator(_) => Creator(r)
    case Background(_) => Background(Some(r))
    case Caller(_, _, _) => me.(c := me.c.(r := r))
  }

  lemma Advances(cfg: Config, s: State, p: nat, x: Reply, sh: Shared, r: RefreshPc)
    requires Indexed(s) && p in s.procs && RefreshOf(s.procs[p]).Some?
    requires RefreshStep(cfg.env, s.sh, p, s.procs[p].Caller?, RefreshOf(s.procs[p]).value, x) == Some((sh, More(r)))
    ensures Step(cfg, s, Run(p, x), State(sh, s.procs[p := Wrapped(s.procs[p], r)]))
  {
    hide RefreshStep, WellIndexed;
  }

  /** The stations of a refresh that meets a valid token and no error, up to the commit, and the replies it gets. */
  function Stations(sh: Shared, resp: SyncResponse, cache: VaultCache): seq<RefreshPc> {
    var token, key := sh.session.accessToken, sh.session.symKey;
    [Ensuring(ReadExpiry), Ensuring(CompareExpiry(sh.session.expiresAt)), ReadToken, ReadKey(token),
     AwaitSync(token, key), Decrypting(resp, key), WantCommit(resp, key, cache)]
  }

  function Replies(resp: SyncResponse, cache: VaultCache): seq<Reply> {
    [NoReply, NoReply, NoReply, NoReply, SyncReplied(SyncOk(resp)), Decoded(cache)]
  }

  predicate TokenFresh(sh: Shared) {
    sh.now + 60 * SECOND < sh.session.expiresAt
  }

  lemma StationStep(env: Env, sh: Shared, p: nat, onDemand: bool, resp: SyncResponse, cache: VaultCache, i: nat)
    requires i < 6 && sh.writer.None? && TokenFresh(sh) && IsVaultOf(env, resp, sh.session.symKey, cache)
    ensures RefreshStep(env, sh, p, onDemand, Stations(sh, resp, cache)[i], Replies(resp, cache)[i])
         == Some((sh, More(Stations(sh, resp, cache)[i + 1])))
  {
    hide IsVaultOf;
  }

  lemma {:induction false} GetsResponse(cfg: Config, run: seq<State>, acts: seq<Action>, p: nat, resp: SyncResponse,
                                        cache: VaultCache, n: nat)
    returns (run': seq<State>, acts': seq<Action>)
    requires IsRun(cfg, run, acts) && n <= 6
    requires var s := run[|run| - 1];
             && p in s.procs && RefreshOf(s.procs[p]) == Some(Ensuring(ReadExpiry))
             && s.sh.writer.None? && TokenFresh(s.sh) && IsVaultOf(cfg.env, resp, s.sh.session.symKey, cache)
    ensures IsRun(cfg, run', acts') && run <= run' && acts <= acts' && |acts'| == |acts| + n
    ensures n > 4 ==> acts'[|acts| + 4] == Run(p, SyncReplied(SyncOk(resp)))
    ensures var s := run[|run| - 1];
            run'[|run'| - 1] == s.(procs := s.procs[p := Wrapped(s.procs[p], Stations(s.sh, resp, cache)[n])])
  {
    assert run != [];
    hide IsRun, Step, IsVaultOf, Indexed, RefreshStep, TokenFresh;
    var s := run[|run| - 1];
    if n == 0 {
      run', acts' := run, acts;
      assert s.procs[p := s.procs[p]] == s.procs;
    } else {
      run', acts' := GetsResponse(cfg, run, acts, p, resp, cache, n - 1);
      var s', x := run'[|run'| - 1], Replies(resp, cache)[n - 1];
      StationStep(cfg.env, s.sh, p, s.procs[p].Caller?, resp, cache, n - 1);
      RunIndexed(cfg, run', acts', |run'| - 1);
      Advances(cfg, s', p, x, s'.sh, Stations(s.sh, resp, cache)[n]);
      var s'' := State(s'.sh, s'.procs[p := Wrapped(s'.procs[p], Stations(s.sh, resp, cache)[n])]);
      Extend(cfg, run', acts', Run(p, x), s'');
      run', acts' := run' + [s''], acts' + [Run(p, x)];
    }
  }

  lemma RunIndexed(cfg: Config, run: seq<State>, acts: seq<Action>, i: nat)
    requires IsRun(cfg, run, acts) && i < |run|
    ensures Indexed(run[i])
  {
    hide IsRun, SharedInv;
    RunInv(cfg, run, acts, i);
    InvIndexed(cfg, run[i]);
  }

  /** The shared state after the commit of a process. */
  function CommittedState(s: State, p: nat, resp: SyncResponse, key: SymmetricKey, cache: VaultCache): Shared
    requires p in s.procs
  {
    var me := s.procs[p];
    s.sh.(session := s.sh.session.(vault := Some(cache), lastRefreshAt := s.sh.now),
          log := s.sh.log + [Committed(p, s.sh.now, me.Caller?, resp, key, cache)],
          live := s.sh.live || me.Creator?, mutex := if me.Caller? then None else s.sh.mutex)
  }

  function AfterCommit(s: State, p: nat): Proc
    requires p in s.procs
  {
    if s.procs[p].Caller? then s.procs[p].(c := WantRead(Some(|s.sh.log|))) else Background(None)
  }

  lemma CommitSteps(cfg: Config, s: State, p: nat, resp: SyncResponse, key: SymmetricKey, cache: VaultCache)
    returns (s1: State, s2: State)
    requires Indexed(s) && p in s.procs && RefreshOf(s.procs[p]) == Some(WantCommit(resp, key, cache))
    requires s.sh.writer.None? && s.sh.readers == {} && WellIndexed(cache)
    ensures Step(cfg, s, Run(p, NoReply), s1) && Indexed(s1) && Step(cfg, s1, Run(p, NoReply), s2) && Indexed(s2)
    ensures Step(cfg, s2, Run(p, NoReply),
                 State(CommittedState(s, p, resp, key, cache), s.procs[p := AfterCommit(s, p)]))
  {
    hide WellIndexed;
    var me := s.procs[p];
    s1 := State(s.sh.(writer := Some(p)), s.procs[p := Wrapped(me, Committing(resp, key, cache, false))]);
    s2 := State(s1.sh.(session := s.sh.session.(vault := Some(cache))),
                s.procs[p := Wrapped(me, Committing(resp, key, cache, true))]);
    Advances(cfg, s, p, NoReply, s1.sh, Committing(resp, key, cache, false));
    Advances(cfg, s1, p, NoReply, s2.sh, Committing(resp, key, cache, true));
    assert s1.procs[p := Wrapped(s1.procs[p], Committing(resp, key, cache, true))] == s2.procs;
    LastCommitStep(cfg, s2, p, resp, key, cache);
    assert s2.procs[p := AfterCommit(s2, p)] == s.procs[p := AfterCommit(s, p)];
    assert CommittedState(s2, p, resp, key, cache).(writer := None) == CommittedState(s, p, resp, key, cache);
  }

  lemma LastCommitStep(cfg: Config, s: State, p: nat, resp: SyncResponse, key: SymmetricKey, cache: VaultCache)
    requires Indexed(s) && p in s.procs && RefreshOf(s.procs[p]) == Some(Committing(resp, key, cache, true))
    requires s.sh.session.vault == Some(cache)
    ensures Step(cfg, s, Run(p, NoReply),
                 State(CommittedState(s, p, resp, key, cache).(writer := None), s.procs[p := AfterCommit(s, p)]))
  {
    hide WellIndexed;
  }

  lemma Commits(cfg: Config, run: seq<State>, acts: seq<Action>, p: nat, resp: SyncResponse, key: SymmetricKey,
                cache: VaultCache)
    returns (run': seq<State>, acts': seq<Action>)
    requires IsRun(cfg, run, acts)
    requires var s := run[|run| - 1];
             && p in s.procs && RefreshOf(s.procs[p]) == Some(WantCommit(resp, key, cache))
             && s.sh.writer.None? && s.sh.readers == {} && WellIndexed(cache)
    ensures IsRun(cfg, run', acts') && run <= run' && acts <= acts'
    ensures var s := run[|run| - 1];
            run'[|run'| - 1] == State(CommittedState(s, p, resp, key, cache), s.procs[p := AfterCommit(s, p)])
  {
    var s := run[|run| - 1];
    RunIndexed(cfg, run, acts, |run| - 1);
    var s1, s2 := CommitSteps(cfg, s, p, resp, key, cache);
    var s3 := State(CommittedState(s, p, resp, key, cache), s.procs[p := AfterCommit(s, p)]);
    hide *;
    Extend(cfg, run, acts, Run(p, NoReply), s1);
    Extend(cfg, run + [s1], acts + [Run(p, NoReply)], Run(p, NoReply), s2);
    run', acts' := run + [s1] + [s2], acts + [Run(p, NoReply)] + [Run(p, NoReply)];
    Extend(cfg, run', acts', Run(p, NoReply), s3);
    run', acts' := run' + [s3], acts' + [Run(p, NoReply)];
  }

  const EMPTY := SyncResponse("", [], [])

  lemma EmptyVault(env: Env, key: SymmetricKey, cache: VaultCache)
    requires IsVaultOf(env, EMPTY, key, cache)
    ensures cache.items == []
  {
    var from :| KeptFrom(env, EMPTY, key, 0, cache.items, from);
    SomeMember(from);
  }

  /** A client that has just come up with this vault, idle but for its background refresher. */
  predicate Idle(s: State, cache: VaultCache) {
    && s.procs == map[0 := Background(None)] && s.sh.live && |s.sh.log| == 1
    && s.sh.readers == {} && s.sh.writer.None? && s.sh.mutex.None?
    && s.sh.session.vault == Some(cache) && s.sh.session.lastRefreshAt == s.sh.now
  }

  lemma ClientComesUp(cfg: Config, s: State, resp: SyncResponse, cache: VaultCache)
    returns (run: seq<State>, acts: seq<Action>)
    requires Init(cfg, s) && TokenFresh(s.sh) && IsVaultOf(cfg.env, resp, s.sh.session.symKey, cache)
    ensures IsRun(cfg, run, acts) && run != [] && Idle(run[|run| - 1], cache)
    ensures run[|run| - 1].sh.now == s.sh.now
    ensures run[|run| - 1].sh.session == s.sh.session.(vault := Some(cache), lastRefreshAt := s.sh.now)
  {
    run, acts := [s], [];
    assert LegalAt(cfg, run, acts, 0);
    DecryptedIsWellIndexed(cfg.env, resp, s.sh.session.symKey, cache);
    var sh := s.sh;
    assert s.procs == map[0 := Creator(Ensuring(ReadExpiry))] && sh.writer.None? && sh.readers == {} && sh.mutex.None?;
    assert sh.log == [];
    hide IsRun, Init, IsVaultOf, WellIndexed, TokenFresh;
    run, acts := GetsResponse(cfg, run, acts, 0, resp, cache, 6);
    run, acts := Commits(cfg, run, acts, 0, resp, s.sh.session.symKey, cache);
    assert run[|run| - 1].procs == map[0 := Background(None)];
  }

  /** A client comes up on an empty vault, with a token that outlasts the cooldown. */
  lemma EmptyClientComesUp(cfg: Config) returns (run: seq<State>, acts: seq<Action>, cache: VaultCache)
    requires Lawful(cfg.env.prims)
    ensures IsRun(cfg, run, acts) && run != [] && Idle(run[|run| - 1], cache) && cache.items == []
    ensures run[|run| - 1].sh.now + 60 * SECOND + cfg.minRefreshInterval < run[|run| - 1].sh.session.expiresAt
    ensures run[|run| - 1].sh.session.refreshToken != ""
  {
    var s := LoggedInState(cfg, 61 * SECOND + cfg.minRefreshInterval);
    cache := VaultExists(cfg.env, EMPTY, s.sh.session.symKey);
    EmptyVault(cfg.env, s.sh.session.symKey, cache);
    hide IsRun, Init, IsVaultOf, Idle;
    run, acts := ClientComesUp(cfg, s, EMPTY, cache);
  }

  lemma LoggedInState(cfg: Config, lifetime: nat) returns (s: State)
    requires Lawful(cfg.env.prims)
    ensures Init(cfg, s) && s.sh.now == 0 && s.sh.session.expiresAt == lifetime && s.sh.log == []
    ensures HasKeys(s.sh.session.symKey) && s.sh.session.refreshToken != ""
  {
    var bytes: Key := seq(32, _ => 0);
    var iv: Block := seq(16, _ => 0);
    var key := SymmetricKey(bytes, bytes);
    var text := MakeType2(cfg.env.prims, StretchKey(cfg.env.prims, bytes).value, iv, bytes + bytes);
    ModernKeyRecovered(cfg.env.prims, bytes, iv, key);
    hide DecryptSymmetricKey, MakeType2, StretchKey, Lawful;
    var l := LoginGrant("", "r", lifetime, text, bytes);
    var sh := Shared(0, SessionState("", "r", lifetime, key, None, 0), {}, None, None, false, [], [Issued("",
        lifetime)]);
    s := State(sh, map[0 := Creator(Ensuring(ReadExpiry))]);
    assert LoggedIn(cfg, s.sh, l);
  }

  lemma CallerAdvances(cfg: Config, ss: seq<State>, acts: seq<Action>, i: nat, p: nat, x: Reply, sh: Shared, me: Proc)
    requires i < |acts| < |ss| && Indexed(ss[i]) && p in ss[i].procs && ss[i].procs[p].Caller?
    requires CallStep(cfg, ss[i].sh, p, ss[i].procs[p], x) == Some((sh, me))
    requires acts[i] == Run(p, x) && ss[i + 1] == State(sh, ss[i].procs[p := me])
    ensures LegalStep(cfg, ss, acts, i)
  {
    hide CallStep, WellIndexed;
  }

  /** Nobody holds a lock, and a miss may be followed by a refresh. */
  predicate Open(cfg: Config, s: State) {
    && s.sh.live && s.sh.readers == {} && s.sh.writer.None? && s.sh.mutex.None?
    && s.sh.session.vault.Some? && s.sh.session.vault.value.items == []
    && s.sh.now - s.sh.session.lastRefreshAt >= cfg.minRefreshInterval
  }

  /** A new caller that misses in the empty vault once the cooldown is over comes to its refresh. */
  lemma MissSteps(cfg: Config, s: State, p: nat) returns (ss: seq<State>, acts: seq<Action>, me: Proc)
    requires Indexed(s) && Open(cfg, s) && p !in s.procs
    ensures |ss| == 6 && |acts| == 5 && ss[0] == s
    ensures forall i :: 0 <= i < 5 ==> LegalStep(cfg, ss, acts, i)
    ensures me.Caller? && RefreshOf(me) == Some(Ensuring(ReadExpiry))
    ensures ss[5] == State(s.sh.(mutex := Some(p), log := s.sh.log + [Started(p, s.sh.now)]), s.procs[p := me])
  {
    var req := SecretRequest("", None);
    var e := MissesEmpty(cfg.env, s.sh.session.vault.value, req);
    hide WellIndexed, LookupItem, IsSecret, RefreshStep, EnsureStep, TokenStep;
    var cache := s.sh.session.vault.value;
    var c0 := Caller([req], WantRead(None), []);
    var c1 := Caller([req], Reading(None, []), []);
    var passes := [Pass(cache, Err(LookupFailed(e)))];
    var c2 := Caller([req], WantMutex(e), passes);
    var c3 := Caller([req], CheckDue(e), passes);
    me := Caller([req], Refreshing(e, |s.sh.log|, Ensuring(ReadExpiry)), passes);
    var s1 := s.(procs := s.procs[p := c0]);
    var s2 := State(s.sh.(readers := {p}), s.procs[p := c1]);
    var s3 := s.(procs := s.procs[p := c2]);
    var s4 := State(s.sh.(mutex := Some(p)), s.procs[p := c3]);
    var s5 := State(s4.sh.(log := s.sh.log + [Started(p, s.sh.now)]), s.procs[p := me]);
    ss := [s, s1, s2, s3, s4, s5];
    acts := [Spawn(p, c0), Run(p, NoReply), Run(p, NoReply), Run(p, NoReply), Run(p, NoReply)];
    assert c1.passes + passes == passes;
    assert s.sh.readers + {p} == {p} && {p} - {p} == s.sh.readers;
    assert CallStep(cfg, s.sh, p, c0, NoReply) == Some((s2.sh, c1));
    assert CallStep(cfg, s2.sh, p, c1, NoReply) == Some((s.sh, c2));
    assert CallStep(cfg, s.sh, p, c2, NoReply) == Some((s4.sh, c3));
    assert CallStep(cfg, s4.sh, p, c3, NoReply) == Some((s5.sh, me));
    assert LegalStep(cfg, ss, acts, 0);
    hide CallStep, LegalStep, Indexed;
    SameVault(s, s1);
    SameVault(s, s2);
    SameVault(s, s3);
    SameVault(s, s4);
    CallerAdvances(cfg, ss, acts, 1, p, NoReply, s2.sh, c1);
    CallerAdvances(cfg, ss, acts, 2, p, NoReply, s.sh, c2);
    CallerAdvances(cfg, ss, acts, 3, p, NoReply, s4.sh, c3);
    CallerAdvances(cfg, ss, acts, 4, p, NoReply, s5.sh, me);
  }

  lemma SameVault(s: State, s': State)
    requires Indexed(s) && s'.sh.session == s.sh.session
    ensures Indexed(s')
  {
  }

  lemma CallerMisses(cfg: Config, run: seq<State>, acts: seq<Action>, p: nat)
    returns (run': seq<State>, acts': seq<Action>, me: Proc)
    requires IsRun(cfg, run, acts) && run != [] && Open(cfg, run[|run| - 1]) && p !in run[|run| - 1].procs
    ensures IsRun(cfg, run', acts') && run' != [] && acts <= acts'
    ensures me.Caller? && RefreshOf(me) == Some(Ensuring(ReadExpiry))
    ensures var s := run[|run| - 1];
            run'[|run'| - 1] ==
              State(s.sh.(mutex := Some(p), log := s.sh.log + [Started(p, s.sh.now)]), s.procs[p := me])
  {
    RunIndexed(cfg, run, acts, |run| - 1);
    hide IsRun, LegalStep, Indexed, Open;
    var ss, more;
    ss, more, me := MissSteps(cfg, run[|run| - 1], p);
    ExtendMany(cfg, run, acts, ss, more, 5);
    run', acts' := run + ss[1..6], acts + more[..5];
  }

  /** The background refresher starts a round. */
  lemma BackgroundStarts(cfg: Config, run: seq<State>, acts: seq<Action>)
    returns (run': seq<State>, acts': seq<Action>)
    requires IsRun(cfg, run, acts) && run != []
    requires 0 in run[|run| - 1].procs && run[|run| - 1].procs[0] == Background(None)
    ensures IsRun(cfg, run', acts') && run' != [] && acts <= acts'
    ensures var s := run[|run| - 1];
            run'[|run'| - 1] == s.(procs := s.procs[0 := Background(Some(Ensuring(ReadExpiry)))])
  {
    var s := run[|run| - 1];
    RunIndexed(cfg, run, acts, |run| - 1);
    var s' := s.(procs := s.procs[0 := Background(Some(Ensuring(ReadExpiry)))]);
    assert Step(cfg, s, Run(0, NoReply), s');
    Extend(cfg, run, acts, Run(0, NoReply), s');
    run', acts' := run + [s'], acts + [Run(0, NoReply)];
  }

  /** Time passes. */
  lemma Waits(cfg: Config, run: seq<State>, acts: seq<Action>, ticks: nat)
    returns (run': seq<State>, acts': seq<Action>)
    requires IsRun(cfg, run, acts) && run != []
    ensures IsRun(cfg, run', acts') && run' != [] && acts <= acts'
    ensures var s := run[|run| - 1]; run'[|run'| - 1] == s.(sh := s.sh.(now := s.sh.now + ticks))
  {
    var s := run[|run| - 1];
    RunIndexed(cfg, run, acts, |run| - 1);
    var s' := s.(sh := s.sh.(now := s.sh.now + ticks));
    Extend(cfg, run, acts, Tick(ticks), s');
    run', acts' := run + [s'], acts + [Tick(ticks)];
  }

  ghost predicate LegalStep(cfg: Config, ss: seq<State>, acts: seq<Action>, i: nat)
    requires i < |acts| < |ss|
  {
    Indexed(ss[i]) && Step(cfg, ss[i], acts[i], ss[i + 1])
  }

  lemma MissesEmpty(env: Env, cache: VaultCache, req: SecretRequest) returns (e: LookupError)
    requires WellIndexed(cache) && cache.items == [] && req.vault.None?
    ensures LookupItem(env, cache, req.name, req.vault) == Err(e) && IsStaleMiss(e)
  {
    FindIsBest(env, cache.items, req.name, None);
    e := NotFound(req.name, 0);
  }

  lemma ExtendAt(cfg: Config, run: seq<State>, acts: seq<Action>, ss: seq<State>, more: seq<Action>, i: nat)
    requires i < |more| < |ss| && LegalStep(cfg, ss, more, i) && IsRun(cfg, run, acts) && run[|run| - 1] == ss[i]
    ensures IsRun(cfg, run + [ss[i + 1]], acts + [more[i]])
  {
    hide IsRun, Step, Indexed;
    Extend(cfg, run, acts, more[i], ss[i + 1]);
  }

  lemma {:induction false} ExtendMany(cfg: Config, run: seq<State>, acts: seq<Action>, ss: seq<State>,
                                      more: seq<Action>, n: nat)
    requires IsRun(cfg, run, acts) && n <= |more| && |ss| == |more| + 1 && ss[0] == run[|run| - 1]
    requires forall i :: 0 <= i < n ==> LegalStep(cfg, ss, more, i)
    ensures IsRun(cfg, run + ss[1..n + 1], acts + more[..n])
  {
    assert run != [];
    hide IsRun, LegalStep;
    if n == 0 {
      assert run + ss[1..1] == run && acts + more[..0] == acts;
    } else {
      ExtendMany(cfg, run, acts, ss, more, n - 1);
      var run', acts' := run + ss[1..n], acts + more[..n - 1];
      assert run'[|run'| - 1] == ss[n - 1];
      ExtendAt(cfg, run', acts', ss, more, n - 1);
      assert run' + [ss[n]] == run + ss[1..n + 1] && acts' + [more[n - 1]] == acts + more[..n];
    }
  }
}
