/** A refresh whose first sync is refused recovers: a run (src/vault/mod.rs:216-242). */
module Recovery {
  import opened Results
  import opened Crypto
  import opened Vault
  import opened Lookup
  import opened Sessions
  import opened Protocol
  import opened Runs
  import opened Guarantees
  import opened Calls
  import opened Schedules

  /** What the server answers after the refusal. */
  datatype Answers = Answers(grant: TokenGrant, resp: SyncResponse, cache: VaultCache)

  function Granted(g: TokenGrant): Change {
    Change(g.accessToken, g.refreshToken, g.lifetime, None)
  }

  /** The session after the first `k` assignments of the renewal. */
  function Written(sh: Shared, p: nat, ch: Change, k: nat): Shared {
    var token := if k >= 1 then ch.accessToken else sh.session.accessToken;
    var refresh := if k >= 2 && ch.refreshToken.Some? then ch.refreshToken.value else sh.session.refreshToken;
    var expiry := if k >= 3 then sh.now + ch.lifetime else sh.session.expiresAt;
    sh.(session := sh.session.(accessToken := token, refreshToken := refresh, expiresAt := expiry),
        issued := if k >= 3 then sh.issued + [Issued(token, expiry)] else sh.issued,
        writer := if k >= 4 then None else Some(p))
  }

  /** The stations from the refusal of the first sync to the commit. */
  function Station(sh: Shared, p: nat, key: SymmetricKey, x: Answers, i: nat): (Shared, RefreshPc)
    requires i <= 11
  {
    var ch := Granted(x.grant);
    var after := Written(sh, p, ch, 4);
    if i == 0 then (sh, AwaitSync(sh.session.accessToken, key))
    else if i == 1 then (sh, Reauthorizing(key, ReadRefreshToken))
    else if i == 2 then (sh, Reauthorizing(key, AwaitToken(sh.session.refreshToken)))
    else if i == 3 then (sh, Reauthorizing(key, WantTokenWrite(ch)))
    else if i <= 7 then (Written(sh, p, ch, i - 4), Reauthorizing(key, WritingToken(ch, i - 4)))
    else if i == 8 then (after, RereadToken(key))
    else if i == 9 then (after, AwaitRetry(x.grant.accessToken, key))
    else if i == 10 then (after, Decrypting(x.resp, key))
    else (after, WantCommit(x.resp, key, x.cache))
  }

  function ReplyAt(x: Answers, i: nat): Reply {
    if i == 0 then SyncReplied(Unauthorized)
    else if i == 2 then TokenReply(Some(x.grant))
    else if i == 9 then SyncReplied(SyncOk(x.resp))
    else if i == 10 then Decoded(x.cache)
    else NoReply
  }

  lemma StationMoves(env: Env, sh: Shared, p: nat, onDemand: bool, key: SymmetricKey, x: Answers, i: nat)
    requires i < 11 && sh.writer.None? && sh.readers == {} && sh.session.refreshToken != ""
    requires IsVaultOf(env, x.resp, key, x.cache)
    ensures var (now, r), (next, r') := Station(sh, p, key, x, i), Station(sh, p, key, x, i + 1);
            RefreshStep(env, now, p, onDemand, r, ReplyAt(x, i)) == Some((next, More(r')))
  {
    hide IsVaultOf;
  }

  lemma {:induction false} Recovers(cfg: Config, run: seq<State>, acts: seq<Action>, p: nat, x: Answers, n: nat)
    returns (run': seq<State>, acts': seq<Action>)
    requires IsRun(cfg, run, acts) && run != [] && n <= 11
    requires var s := run[|run| - 1];
             && p in s.procs && s.sh.writer.None? && s.sh.readers == {} && s.sh.session.refreshToken != ""
             && RefreshOf(s.procs[p]) == Some(AwaitSync(s.sh.session.accessToken, s.sh.session.symKey))
             && IsVaultOf(cfg.env, x.resp, s.sh.session.symKey, x.cache)
    ensures IsRun(cfg, run', acts') && run <= run' && acts <= acts' && run' != [] && |acts'| == |acts| + n
    ensures forall i :: 0 <= i < n ==> acts'[|acts| + i] == Run(p, ReplyAt(x, i))
    ensures var s := run[|run| - 1];
            var (sh, r) := Station(s.sh, p, s.sh.session.symKey, x, n);
            run'[|run'| - 1] == State(sh, s.procs[p := Wrapped(s.procs[p], r)])
    decreases n
  {
    hide IsRun, Step, IsVaultOf, Indexed, RefreshStep, Station, ReplyAt;
    var s := run[|run| - 1];
    var key := s.sh.session.symKey;
    if n == 0 {
      run', acts' := run, acts;
      FirstStation(s.sh, p, key, x);
      assert s.procs[p := s.procs[p]] == s.procs;
    } else {
      run', acts' := Recovers(cfg, run, acts, p, x, n - 1);
      var s', a := run'[|run'| - 1], Run(p, ReplyAt(x, n - 1));
      StationMoves(cfg.env, s.sh, p, s.procs[p].Caller?, key, x, n - 1);
      RunIndexed(cfg, run', acts', |run'| - 1);
      var (sh, r) := Station(s.sh, p, key, x, n);
      Advances(cfg, s', p, ReplyAt(x, n - 1), sh, r);
      var s'' := State(sh, s'.procs[p := Wrapped(s'.procs[p], r)]);
      Extend(cfg, run', acts', a, s'');
      run', acts' := run' + [s''], acts' + [a];
    }
  }

  lemma FirstStation(sh: Shared, p: nat, key: SymmetricKey, x: Answers)
    ensures Station(sh, p, key, x, 0) == (sh, AwaitSync(sh.session.accessToken, key))
  {
  }

  lemma LastStation(sh: Shared, p: nat, key: SymmetricKey, x: Answers)
    ensures Station(sh, p, key, x, 11) == (Written(sh, p, Granted(x.grant), 4), WantCommit(x.resp, key, x.cache))
    ensures var after := Written(sh, p, Granted(x.grant), 4);
            after.writer.None? && after.readers == sh.readers && after.log == sh.log
            && after.session.accessToken == x.grant.accessToken && after.session.symKey == sh.session.symKey
  {
  }

  lemma RefusedThenAnswered(x: Answers)
    ensures ReplyAt(x, 0) == SyncReplied(Unauthorized) && ReplyAt(x, 2) == TokenReply(Some(x.grant))
    ensures ReplyAt(x, 9) == SyncReplied(SyncOk(x.resp))
  {
  }

  /** At the end of the run the vault is that of `resp`, committed last, and the access token that of the grant. */
  ghost predicate Recovered(env: Env, run: seq<State>, acts: seq<Action>, grant: TokenGrant, resp: SyncResponse)
    requires run != []
  {
    var sh := run[|run| - 1].sh;
    && |sh.log| == 2 && sh.log[1].Committed? && sh.log[1].pid == 0 && sh.log[1].resp == resp
    && sh.session.vault == Some(sh.log[1].cache) && IsVaultOf(env, resp, sh.session.symKey, sh.log[1].cache)
    && sh.session.accessToken == grant.accessToken
    && exists i: nat, j: nat, k: nat ::
         && i < j < k < |acts| && acts[i] == Run(0, SyncReplied(Unauthorized))
         && acts[j] == Run(0, TokenReply(Some(grant))) && acts[k] == Run(0, SyncReplied(SyncOk(resp)))
  }

  /**
   For any grant and any response: the first sync is refused, the token renewed, the second sync answered, and its
   response is what is committed.
   */
  lemma RefusalIsRecovered(cfg: Config, grant: TokenGrant, resp: SyncResponse)
    returns (run: seq<State>, acts: seq<Action>)
    requires Lawful(cfg.env.prims)
    ensures IsRun(cfg, run, acts) && run != [] && Recovered(cfg.env, run, acts, grant, resp)
  {
    var run0, acts0, cache0 := EmptyClientComesUp(cfg);
    var s0 := run0[|run0| - 1];
    var key := s0.sh.session.symKey;
    var any := VaultExists(cfg.env, EMPTY, key);
    var cache := VaultExists(cfg.env, resp, key);
    var x := Answers(grant, resp, cache);
    DecryptedIsWellIndexed(cfg.env, resp, key, cache);
    hide IsVaultOf, IsRun, WellIndexed, Station, ReplyAt, Written, Lawful;
    var run1, acts1 := BackgroundStarts(cfg, run0, acts0);
    var run2, acts2 := GetsResponse(cfg, run1, acts1, 0, EMPTY, any, 4);
    assert run2 != [];
    var run3, acts3 := Recovers(cfg, run2, acts2, 0, x, 11);
    LastStation(run2[|run2| - 1].sh, 0, key, x);
    run, acts := Commits(cfg, run3, acts3, 0, resp, key, cache);
    RefusedThenAnswered(x);
    var n := |acts2|;
    assert acts[n] == Run(0, SyncReplied(Unauthorized)) && acts[n + 2] == Run(0, TokenReply(Some(grant)));
    assert acts[n + 9] == Run(0, SyncReplied(SyncOk(resp)));
  }
}
