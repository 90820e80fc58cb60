/** Which commits can put an older response over a newer one, and which cannot (src/vault/mod.rs:191-245, 284-307). */
module Freshness {
  import opened Results
  import opened Crypto
  import opened Vault
  import opened Lookup
  import opened Sessions
  import opened Protocol
  import opened Invariants
  import opened Runs
  import opened Guarantees
  import opened Calls
  import opened Schedules

  // ----- on-demand refreshes follow each other -----

  lemma StartStep(cfg: Config, s: State, a: Action, s': State, p: nat)
    requires Inv(cfg, s) && Indexed(s) && Step(cfg, s, a, s') && p in s.procs && RefreshOf(s.procs[p]).Some?
    requires p in s'.procs && s'.procs[p].Caller? && s'.procs[p].c.Refreshing?
    ensures s.procs[p].Caller? && s.procs[p].c.start == s'.procs[p].c.start
  {
    hide Inv, RefreshStep, EnsureStep, LookupItem, IsSecret, WellIndexed;
  }

  lemma {:induction false} StartKept(cfg: Config, run: seq<State>, acts: seq<Action>, p: nat, k: nat, c: nat)
    requires IsRun(cfg, run, acts) && k <= c < |run|
    requires forall m :: k <= m <= c ==> p in run[m].procs && RefreshOf(run[m].procs[p]).Some?
    requires run[c].procs[p].Caller?
    ensures run[k].procs[p].Caller? && run[k].procs[p].c.Refreshing? && run[c].procs[p].c.Refreshing?
    ensures run[k].procs[p].c.start == run[c].procs[p].c.start
    decreases c
  {
    hide Inv, Init, Step, Indexed;
    if k < c {
      assert LegalAt(cfg, run, acts, c);
      RunInv(cfg, run, acts, c - 1);
      StartStep(cfg, run[c - 1], acts[c - 1], run[c], p);
      StartKept(cfg, run, acts, p, k, c - 1);
    }
  }

  lemma StartIsOwn(cfg: Config, s: State, p: nat)
    requires Inv(cfg, s) && p in s.procs && s.procs[p].Caller? && s.procs[p].c.Refreshing?
    ensures OwnStart(s.sh.log, s.procs[p].c.start, p)
  {
    assert ProcLocal(cfg, s.sh, p, s.procs[p]);
  }

  /**
   An on-demand refresh that commits after another on-demand refresh read its key, and so sent its request, after
   that commit: among themselves they never put an older response over a newer one.
   */
  lemma OnDemandIsFresh(cfg: Config, run: seq<State>, acts: seq<Action>, j: nat, d: nat, e: nat)
    requires IsRun(cfg, run, acts) && j < |run| && d < e < |run[j].sh.log|
    requires OnDemandCommit(run[j].sh.log[d]) && OnDemandCommit(run[j].sh.log[e])
    ensures exists k: nat, r: nat, c: nat ::
              && c < j && OwnRefresh(run, acts, e, k, r, c) && run[c + 1].sh.log[e] == run[j].sh.log[e]
              && d < |run[k].sh.log| && run[k].sh.log[d] == run[j].sh.log[d]
  {
    hide Init, Step, Inv, IsVaultOf;
    CommitsAreOwnRefreshes(cfg, run, acts, j, e);
    var k: nat, r: nat, c: nat :| c < j && OwnRefresh(run, acts, e, k, r, c)
        && run[c + 1].sh.log[e] == run[j].sh.log[e];
    var p := run[j].sh.log[e].pid;
    LogPrefix(cfg, run, acts, k, j);
    LogPrefix(cfg, run, acts, c, j);
    assert forall m :: k <= m <= c ==> p in run[m].procs && RefreshOf(run[m].procs[p]).Some?;
    StartKept(cfg, run, acts, p, k, c);
    RunInv(cfg, run, acts, k);
    RunInv(cfg, run, acts, c);
    StartIsOwn(cfg, run[k], p);
    StartIsOwn(cfg, run[c], p);
    OneEvent(cfg, run, acts, c);
    assert run[c].sh.log[d] == run[j].sh.log[d];
  }

  lemma LogPrefix(cfg: Config, run: seq<State>, acts: seq<Action>, i: nat, j: nat)
    requires IsRun(cfg, run, acts) && i <= j < |run|
    ensures |run[i].sh.log| <= |run[j].sh.log| && run[j].sh.log[..|run[i].sh.log|] == run[i].sh.log
  {
    hide IsRun;
    CreatorStays(cfg, run, acts, i);
    LogGrows(cfg, run, acts, i, j, 0);
  }

  lemma OneEvent(cfg: Config, run: seq<State>, acts: seq<Action>, c: nat)
    requires IsRun(cfg, run, acts) && c < |acts|
    ensures |run[c + 1].sh.log| <= |run[c].sh.log| + 1
  {
    hide Init, Inv, ProcStep;
    assert LegalAt(cfg, run, acts, c + 1);
    RunInv(cfg, run, acts, c);
    StepKeeps(cfg, run[c], acts[c], run[c + 1]);
  }

  // ----- so do the refreshes of one process -----

  lemma CommitLetsGo(cfg: Config, s: State, a: Action, s': State)
    requires Indexed(s) && Step(cfg, s, a, s') && |s.sh.log| < |s'.sh.log| && s'.sh.log[|s.sh.log|].Committed?
    ensures s'.sh.log[|s.sh.log|].pid in s'.procs && KeyOf(s'.procs[s'.sh.log[|s.sh.log|].pid]).None?
  {
    hide RefreshStep, ReadStep, WellIndexed;
    if a.Run? {
      var q, me := a.p, s.procs[a.p];
      if RefreshOf(me).Some? {
        RefreshStepSource(cfg.env, s.sh, q, me.Caller?, RefreshOf(me).value, a.x);
      } else if me.Caller? && me.c.Reading? {
        ReadStepLog(cfg, s.sh, q, me, a.x);
      } else if me.TokenKeeper? && me.t.Some? {
        EnsureStepLog(cfg.env, s.sh, q, me.t.value, a.x);
      }
    }
  }

  /** Commit `e` came of a request sent after commit `d`. */
  ghost predicate SentAfter(run: seq<State>, acts: seq<Action>, j: nat, d: nat, e: nat)
    requires |run| == |acts| + 1 && j < |run| && d < |run[j].sh.log| && e < |run[j].sh.log|
  {
    exists k: nat, r: nat, c: nat ::
      && c < j && OwnRefresh(run, acts, e, k, r, c) && run[c + 1].sh.log[e] == run[j].sh.log[e]
      && d < |run[k].sh.log| && run[k].sh.log[d] == run[j].sh.log[d]
  }

  lemma OwnFacts(run: seq<State>, acts: seq<Action>, e: nat, k: nat, r: nat, c: nat)
    requires |run| == |acts| + 1 && OwnRefresh(run, acts, e, k, r, c)
    ensures k < c < |acts| && |run[c].sh.log| <= e < |run[c + 1].sh.log| && run[c + 1].sh.log[e].Committed?
    ensures var p := run[c + 1].sh.log[e].pid;
            forall m :: k < m <= c ==> p in run[m].procs && KeyOf(run[m].procs[p]).Some?
  {
  }

  lemma LogLonger(cfg: Config, run: seq<State>, acts: seq<Action>, i: nat, j: nat)
    requires IsRun(cfg, run, acts) && i <= j < |run|
    ensures |run[i].sh.log| <= |run[j].sh.log|
  {
    hide IsRun;
    LogPrefix(cfg, run, acts, i, j);
  }

  lemma HoldsNothing(cfg: Config, run: seq<State>, acts: seq<Action>, d: nat, c: nat)
    requires IsRun(cfg, run, acts) && c < |acts|
    requires |run[c].sh.log| <= d < |run[c + 1].sh.log| && run[c + 1].sh.log[d].Committed?
    ensures var p := run[c + 1].sh.log[d].pid; p in run[c + 1].procs ==> KeyOf(run[c + 1].procs[p]).None?
  {
    assert |run| == |acts| + 1;
    hide *;
    OneEvent(cfg, run, acts, c);
    StepOf(cfg, run, acts, c);
    CommitLetsGo(cfg, run[c], acts[c], run[c + 1]);
    assert d == |run[c].sh.log|;
  }

  /** A process that committed `d` at `c0` held no key then, so it read the key of `e` later. */
  lemma CommittedBeforeKey(cfg: Config, run: seq<State>, acts: seq<Action>, d: nat, c0: nat, e: nat, k: nat, c: nat,
                           p: nat)
    requires IsRun(cfg, run, acts) && k < c < |acts| && c0 < |acts| && d < e
    requires |run[c].sh.log| <= e < |run[c + 1].sh.log|
    requires |run[c0].sh.log| <= d < |run[c0 + 1].sh.log| && run[c0 + 1].sh.log[d].Committed?
    requires run[c0 + 1].sh.log[d].pid == p
    requires forall m :: k < m <= c ==> p in run[m].procs && KeyOf(run[m].procs[p]).Some?
    ensures d < |run[k].sh.log|
  {
    assert |run| == |acts| + 1;
    hide *;
    OneEvent(cfg, run, acts, c);
    if c <= c0 {
      LogLonger(cfg, run, acts, c, c0);
    } else if c0 < k {
      LogLonger(cfg, run, acts, c0 + 1, k);
    } else {
      HoldsNothing(cfg, run, acts, d, c0);
    }
  }

  lemma SameProcessIsFresh(cfg: Config, run: seq<State>, acts: seq<Action>, j: nat, d: nat, e: nat)
    requires IsRun(cfg, run, acts) && j < |run| && d < e < |run[j].sh.log|
    requires run[j].sh.log[d].Committed? && run[j].sh.log[e].Committed? && run[j].sh.log[d].pid == run[j].sh.log[e].pid
    ensures SentAfter(run, acts, j, d, e)
  {
    assert |run| == |acts| + 1;
    hide Init, Step, IsVaultOf, OwnRefresh, IsRun, KeyOf, Indexed;
    CommitsAreOwnRefreshes(cfg, run, acts, j, e);
    var k: nat, r: nat, c: nat :| c < j && OwnRefresh(run, acts, e, k, r, c)
                                  && run[c + 1].sh.log[e] == run[j].sh.log[e];
    OwnFacts(run, acts, e, k, r, c);
    CommitsAreOwnRefreshes(cfg, run, acts, j, d);
    var k0: nat, r0: nat, c0: nat :| c0 < j && OwnRefresh(run, acts, d, k0, r0, c0)
                                     && run[c0 + 1].sh.log[d] == run[j].sh.log[d];
    OwnFacts(run, acts, d, k0, r0, c0);
    CommittedBeforeKey(cfg, run, acts, d, c0, e, k, c, run[j].sh.log[e].pid);
    LogPrefix(cfg, run, acts, k, j);
    assert run[k].sh.log[d] == run[j].sh.log[d];
  }

  /**
   With one background refresher, a commit may overlook an earlier one only if exactly one of the two was on
   demand; both cases occur, by `OlderOverNewer`.
   */
  lemma FreshUnlessMixed(cfg: Config, run: seq<State>, acts: seq<Action>, j: nat, d: nat, e: nat)
    requires IsRun(cfg, run, acts) && j < |run| && d < e < |run[j].sh.log|
    requires run[j].sh.log[d].Committed? && run[j].sh.log[e].Committed?
    requires forall i :: 0 <= i < |run[j].sh.log| && run[j].sh.log[i].Committed? && !run[j].sh.log[i].onDemand ==>
               run[j].sh.log[i].pid == 0
    ensures SentAfter(run, acts, j, d, e) || run[j].sh.log[d].onDemand != run[j].sh.log[e].onDemand
  {
    hide IsRun, OwnRefresh;
    if run[j].sh.log[d].onDemand && run[j].sh.log[e].onDemand {
      OnDemandIsFresh(cfg, run, acts, j, d, e);
    } else if !run[j].sh.log[d].onDemand && !run[j].sh.log[e].onDemand {
      SameProcessIsFresh(cfg, run, acts, j, d, e);
    }
  }

  // ----- a background refresh and an on-demand one can overtake each other -----

  /** The vault holds the older of two responses: it was received first and committed last, on demand or not. */
  ghost predicate OlderWins(env: Env, run: seq<State>, acts: seq<Action>, older: SyncResponse, newer: SyncResponse,
                            onDemand: bool)
    requires run != []
  {
    var sh := run[|run| - 1].sh;
    && |sh.log| == 4 && sh.log[2].Committed? && sh.log[3].Committed?
    && sh.log[2].resp == newer && sh.log[3].resp == older
    && sh.log[2].onDemand == !onDemand && sh.log[3].onDemand == onDemand
    && sh.session.vault.Some? && IsVaultOf(env, older, sh.session.symKey, sh.session.vault.value)
    && exists i: nat, j: nat :: i < j < |acts| && acts[i] == Run(sh.log[3].pid, SyncReplied(SyncOk(older)))
                                && acts[j] == Run(sh.log[2].pid, SyncReplied(SyncOk(newer)))
  }

  /** The background refresher is overtaken by a caller. */
  lemma BackgroundLast(cfg: Config, older: SyncResponse, newer: SyncResponse)
    returns (run: seq<State>, acts: seq<Action>)
    requires Lawful(cfg.env.prims)
    ensures IsRun(cfg, run, acts) && OlderWins(cfg.env, run, acts, older, newer, false)
  {
    var run0, acts0, cache := EmptyClientComesUp(cfg);
    var s0 := run0[|run0| - 1];
    var key := s0.sh.session.symKey;
    var a := VaultExists(cfg.env, older, key);
    var b := VaultExists(cfg.env, newer, key);
    DecryptedIsWellIndexed(cfg.env, older, key, a);
    DecryptedIsWellIndexed(cfg.env, newer, key, b);
    hide IsVaultOf, IsRun, WellIndexed;
    var run1, acts1 := Waits(cfg, run0, acts0, cfg.minRefreshInterval);
    var run2, acts2 := BackgroundStarts(cfg, run1, acts1);
    var run3, acts3 := GetsResponse(cfg, run2, acts2, 0, older, a, 6);
    assert run3 != [];
    var run4, acts4, me := CallerMisses(cfg, run3, acts3, 1);
    var run5, acts5 := GetsResponse(cfg, run4, acts4, 1, newer, b, 6);
    var run6, acts6 := Commits(cfg, run5, acts5, 1, newer, key, b);
    run, acts := Commits(cfg, run6, acts6, 0, older, key, a);
    assert run[|run| - 1].sh.log[2].resp == newer && run[|run| - 1].sh.log[3].resp == older;
    assert acts[|acts2| + 4] == Run(0, SyncReplied(SyncOk(older)));
    assert acts[|acts4| + 4] == Run(1, SyncReplied(SyncOk(newer)));
  }

  /** A caller is overtaken by the background refresher. */
  lemma OnDemandLast(cfg: Config, older: SyncResponse, newer: SyncResponse)
    returns (run: seq<State>, acts: seq<Action>)
    requires Lawful(cfg.env.prims)
    ensures IsRun(cfg, run, acts) && OlderWins(cfg.env, run, acts, older, newer, true)
  {
    var run0, acts0, cache := EmptyClientComesUp(cfg);
    var s0 := run0[|run0| - 1];
    var key := s0.sh.session.symKey;
    var a := VaultExists(cfg.env, older, key);
    var b := VaultExists(cfg.env, newer, key);
    DecryptedIsWellIndexed(cfg.env, older, key, a);
    DecryptedIsWellIndexed(cfg.env, newer, key, b);
    hide IsVaultOf, IsRun, WellIndexed;
    var run1, acts1 := Waits(cfg, run0, acts0, cfg.minRefreshInterval);
    var run2, acts2, me := CallerMisses(cfg, run1, acts1, 1);
    var run3, acts3 := GetsResponse(cfg, run2, acts2, 1, older, a, 6);
    assert run3 != [];
    var run4, acts4 := BackgroundStarts(cfg, run3, acts3);
    var run5, acts5 := GetsResponse(cfg, run4, acts4, 0, newer, b, 6);
    var run6, acts6 := Commits(cfg, run5, acts5, 0, newer, key, b);
    run, acts := Commits(cfg, run6, acts6, 1, older, key, a);
    assert run[|run| - 1].sh.log[2].resp == newer && run[|run| - 1].sh.log[3].resp == older;
    assert acts[|acts2| + 4] == Run(1, SyncReplied(SyncOk(older)));
    assert acts[|acts4| + 4] == Run(0, SyncReplied(SyncOk(newer)));
  }

  /** For any two responses, and either order, there is a run in which the one received first is committed last. */
  lemma OlderOverNewer(cfg: Config, older: SyncResponse, newer: SyncResponse, onDemand: bool)
    returns (run: seq<State>, acts: seq<Action>)
    requires Lawful(cfg.env.prims)
    ensures IsRun(cfg, run, acts) && OlderWins(cfg.env, run, acts, older, newer, onDemand)
  {
    hide IsRun, OlderWins;
    if onDemand {
      run, acts := OnDemandLast(cfg, older, newer);
    } else {
      run, acts := BackgroundLast(cfg, older, newer);
    }
  }

  // ----- a failed refresh does not cool down -----

  /** The on-demand refresh of `p` is refused by the server, and the call gives up. */
  lemma SyncFails(cfg: Config, run: seq<State>, acts: seq<Action>, p: nat)
    returns (run': seq<State>, acts': seq<Action>, me: Proc)
    requires IsRun(cfg, run, acts) && run != []
    requires var s := run[|run| - 1];
             p in s.procs && s.procs[p].Caller? && RefreshOf(s.procs[p]).Some? && RefreshOf(s.procs[p]).value.AwaitSync?
    ensures IsRun(cfg, run', acts') && run' != []
    ensures var s := run[|run| - 1]; run'[|run'| - 1] == State(s.sh.(mutex := None), s.procs[p := me])
  {
    var s := run[|run| - 1];
    RunIndexed(cfg, run, acts, |run| - 1);
    me := s.procs[p].(c := Returned(Err(LookupFailed(s.procs[p].c.e))));
    var s' := State(s.sh.(mutex := None), s.procs[p := me]);
    hide WellIndexed;
    assert Step(cfg, s, Run(p, SyncReplied(SyncError)), s');
    Extend(cfg, run, acts, Run(p, SyncReplied(SyncError)), s');
    run', acts' := run + [s'], acts + [Run(p, SyncReplied(SyncError))];
  }

  /** Two on-demand refreshes that start at the same moment, whatever the cooldown: the first one failed. */
  lemma FailedRefreshDoesNotCool(cfg: Config) returns (run: seq<State>, acts: seq<Action>)
    requires Lawful(cfg.env.prims)
    ensures IsRun(cfg, run, acts) && run != [] && |run[|run| - 1].sh.log| == 3
    ensures var log := run[|run| - 1].sh.log;
            log[1].Started? && log[2].Started? && log[1].pid != log[2].pid && log[1].at == log[2].at
  {
    var run0, acts0, cache := EmptyClientComesUp(cfg);
    var s0 := run0[|run0| - 1];
    var any := VaultExists(cfg.env, EMPTY, s0.sh.session.symKey);
    hide IsVaultOf, IsRun, WellIndexed;
    var run1, acts1 := Waits(cfg, run0, acts0, cfg.minRefreshInterval);
    var run2, acts2, me := CallerMisses(cfg, run1, acts1, 1);
    var run3, acts3 := GetsResponse(cfg, run2, acts2, 1, EMPTY, any, 4);
    assert run3 != [];
    var run4, acts4, me' := SyncFails(cfg, run3, acts3, 1);
    var me'';
    run, acts, me'' := CallerMisses(cfg, run4, acts4, 2);
  }
}
