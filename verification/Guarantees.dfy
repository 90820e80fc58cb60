/** Session consistency, where a committed cache comes from, what a call costs, and the end-to-end guarantee. */
module Guarantees {
  import opened Results
  import opened Crypto
  import opened Vault
  import opened Lookup
  import opened Sessions
  import opened Protocol
  import opened Invariants
  import opened Runs

  // ----- the session -----

  /** The session as anyone holding the lock sees it. */
  lemma SessionConsistent(cfg: Config, run: seq<State>, acts: seq<Action>, i: nat)
    requires IsRun(cfg, run, acts) && i < |run|
    ensures HasKeys(run[i].sh.session.symKey)
    ensures run[i].sh.writer.None? ==> Paired(run[i].sh) && Backed(run[i].sh)
    ensures run[i].sh.writer.Some? ==> run[i].sh.readers == {}
    ensures run[i].sh.live ==> run[i].sh.session.vault.Some?
    ensures run[i].sh.session.lastRefreshAt <= run[i].sh.now
  {
    hide Init, Step, Paired, Backed;
    RunInv(cfg, run, acts, i);
  }

  /** The time of the last refresh never goes back, and a client once open stays open. */
  lemma {:induction false} RefreshTimeMonotone(cfg: Config, run: seq<State>, acts: seq<Action>, i: nat, j: nat)
    requires IsRun(cfg, run, acts) && i <= j < |run|
    ensures run[i].sh.session.lastRefreshAt <= run[j].sh.session.lastRefreshAt
    ensures run[i].sh.live ==> run[j].sh.live
  {
    hide Init, Inv, ProcStep;
    assert LegalAt(cfg, run, acts, j);
    if i < j {
      RefreshTimeMonotone(cfg, run, acts, i, j - 1);
      RunInv(cfg, run, acts, j - 1);
      StepKeeps(cfg, run[j - 1], acts[j - 1], run[j]);
    }
  }

  /** No call ever reports that the client is not initialized. */
  lemma NeverUninitialized(cfg: Config, run: seq<State>, acts: seq<Action>, p: nat, j: nat)
    requires IsRun(cfg, run, acts) && j < |run| && p in run[j].procs
    requires run[j].procs[p].Caller? && run[j].procs[p].c.Returned?
    ensures run[j].procs[p].c.result != Err(NotInitialized)
  {
    hide IsRun, WellIndexed, ReadsNow;
    FetchIsSnapshot(cfg, run, acts, p, j);
  }

  // ----- where a committed cache comes from -----

  function RefreshOf(me: Proc): Option<RefreshPc> {
    match me
    case Creator(r) => Some(r)
    case Background(b) => b
    case TokenKeeper(_) => None
    case Caller(_, c, _) => if c.Refreshing? then Some(c.r) else None
  }

  function KeyOf(me: Proc): Option<SymmetricKey> {
    match RefreshOf(me)
    case Some(AwaitSync(_, key)) => Some(key)
    case Some(Reauthorizing(key, _)) => Some(key)
    case Some(RereadToken(key)) => Some(key)
    case Some(AwaitRetry(_, key)) => Some(key)
    case Some(Decrypting(_, key)) => Some(key)
    case Some(WantCommit(_, key, _)) => Some(key)
    case Some(Committing(_, key, _, _)) => Some(key)
    case _ => None
  }

  function ResponseOf(me: Proc): Option<SyncResponse> {
    match RefreshOf(me)
    case Some(Decrypting(resp, _)) => Some(resp)
    case Some(WantCommit(resp, _, _)) => Some(resp)
    case Some(Committing(resp, _, _, _)) => Some(resp)
    case _ => None
  }

  predicate AtReadKey(me: Proc) {
    RefreshOf(me).Some? && RefreshOf(me).value.ReadKey?
  }

  lemma RefreshStepSource(env: Env, sh: Shared, p: nat, onDemand: bool, pc: RefreshPc, x: Reply)
    requires RefreshStep(env, sh, p, onDemand, pc, x).Some?
    ensures var (sh', r) := RefreshStep(env, sh, p, onDemand, pc, x).value;
            var me := Background(Some(pc));
            && (r.More? ==>
                  var me' := Background(Some(r.pc));
                  && sh'.log == sh.log
                  && (KeyOf(me').Some? ==>
                        KeyOf(me) == KeyOf(me') || (pc.ReadKey? && KeyOf(me') == Some(sh.session.symKey)))
                  && (ResponseOf(me').Some? ==>
                        ResponseOf(me) == ResponseOf(me') || x == SyncReplied(SyncOk(ResponseOf(me').value))))
            && (r.Finished? && sh'.log != sh.log ==>
                  && |sh'.log| == |sh.log| + 1 && sh'.log[..|sh.log|] == sh.log && sh'.log[|sh.log|].Committed?
                  && sh'.log[|sh.log|].pid == p && sh'.log[|sh.log|].onDemand == onDemand
                  && KeyOf(me) == Some(sh'.log[|sh.log|].key) && ResponseOf(me) == Some(sh'.log[|sh.log|].resp))
  {
    hide IsVaultOf, DecryptSymmetricKey;
  }

  /** One step: a held key or response was held already, or has just been read or received; a commit records them. */
  lemma StepSource(cfg: Config, s: State, a: Action, s': State, p: nat)
    requires Indexed(s) && Step(cfg, s, a, s') && p in s'.procs
    ensures KeyOf(s'.procs[p]).Some? ==>
              && p in s.procs
              && (|| KeyOf(s.procs[p]) == KeyOf(s'.procs[p])
                  || (AtReadKey(s.procs[p]) && KeyOf(s'.procs[p]) == Some(s.sh.session.symKey)))
    ensures ResponseOf(s'.procs[p]).Some? ==>
              && p in s.procs
              && (|| ResponseOf(s.procs[p]) == ResponseOf(s'.procs[p])
                  || a == Run(p, SyncReplied(SyncOk(ResponseOf(s'.procs[p]).value))))
    ensures |s.sh.log| <= |s'.sh.log| && s'.sh.log[..|s.sh.log|] == s.sh.log
    ensures forall e :: |s.sh.log| <= e < |s'.sh.log| && s'.sh.log[e].Committed? && s'.sh.log[e].pid == p ==>
              && p in s.procs
              && KeyOf(s.procs[p]) == Some(s'.sh.log[e].key) && ResponseOf(s.procs[p]) == Some(s'.sh.log[e].resp)
              && (s'.sh.log[e].onDemand ==> s.procs[p].Caller?)
  {
    hide RefreshStep, ReadStep, WellIndexed;
    if a.Run? {
      var q, me := a.p, s.procs[a.p];
      if RefreshOf(me).Some? {
        RefreshStepSource(cfg.env, s.sh, q, me.Caller?, RefreshOf(me).value, a.x);
      } else if me.Caller? && me.c.Reading? {
        ReadStepLog(cfg, s.sh, q, me, a.x);
      } else if me.TokenKeeper? && me.t.Some? {
        EnsureStepLog(cfg.env, s.sh, q, me.t.value, a.x);
      }
    }
  }

  lemma ReadStepLog(cfg: Config, sh: Shared, p: nat, me: Proc, x: Reply)
    requires me.Caller? && me.c.Reading?
    requires sh.session.vault.Some? ==> WellIndexed(sh.session.vault.value)
    ensures ReadStep(cfg, sh, p, me, x).Some? ==>
              ReadStep(cfg, sh, p, me, x).value.0.log == sh.log && RefreshOf(ReadStep(cfg, sh, p, me, x).value.1).None?
  {
    hide LookupItem, IsSecret, WellIndexed;
  }

  lemma EnsureStepLog(env: Env, sh: Shared, p: nat, e: EnsurePc, x: Reply)
    ensures EnsureStep(env, sh, p, e, x).Some? ==> EnsureStep(env, sh, p, e, x).value.0.log == sh.log
  {
    hide DecryptSymmetricKey;
  }

  /** Between states `k` and `j` process `p` holds `key` without a break, having read it from the session at `k`. */
  ghost predicate HeldSince(run: seq<State>, p: nat, key: SymmetricKey, k: nat, j: nat)
    requires k < j < |run|
  {
    && p in run[k].procs && AtReadKey(run[k].procs[p])
    && run[k].sh.session.symKey == key
    && forall m :: k < m <= j ==> p in run[m].procs && KeyOf(run[m].procs[p]) == Some(key)
  }

  lemma {:induction false} KeyWasRead(cfg: Config, run: seq<State>, acts: seq<Action>, p: nat, j: nat) returns (k: nat)
    requires IsRun(cfg, run, acts) && j < |run| && p in run[j].procs && KeyOf(run[j].procs[p]).Some?
    ensures k < j && HeldSince(run, p, KeyOf(run[j].procs[p]).value, k, j)
  {
    hide Step, Init, KeyOf, ResponseOf, AtReadKey, Indexed;
    assert LegalAt(cfg, run, acts, j);
    assert j > 0 by {
      if j == 0 { InitHoldsNothing(cfg, run[0], p); }
    }
    StepSource(cfg, run[j - 1], acts[j - 1], run[j], p);
    if KeyOf(run[j - 1].procs[p]) == KeyOf(run[j].procs[p]) {
      k := KeyWasRead(cfg, run, acts, p, j - 1);
    } else {
      k := j - 1;
    }
  }

  lemma InitHoldsNothing(cfg: Config, s: State, p: nat)
    requires Init(cfg, s)
    ensures p in s.procs ==> KeyOf(s.procs[p]).None? && ResponseOf(s.procs[p]).None?
  {
  }

  lemma {:induction false} ResponseWasReceived(cfg: Config, run: seq<State>, acts: seq<Action>, p: nat, j: nat)
    returns (k: nat)
    requires IsRun(cfg, run, acts) && j < |run| && p in run[j].procs && ResponseOf(run[j].procs[p]).Some?
    ensures k < j && acts[k] == Run(p, SyncReplied(SyncOk(ResponseOf(run[j].procs[p]).value)))
    ensures forall m :: k < m <= j ==> p in run[m].procs && ResponseOf(run[m].procs[p]) == ResponseOf(run[j].procs[p])
  {
    hide Step, Init, KeyOf, ResponseOf, AtReadKey, Indexed;
    assert LegalAt(cfg, run, acts, j);
    assert j > 0 by {
      if j == 0 { InitHoldsNothing(cfg, run[0], p); }
    }
    StepSource(cfg, run[j - 1], acts[j - 1], run[j], p);
    if ResponseOf(run[j - 1].procs[p]) == ResponseOf(run[j].procs[p]) {
      k := ResponseWasReceived(cfg, run, acts, p, j - 1);
    } else {
      k := j - 1;
    }
  }

  lemma {:induction false} LogGrows(cfg: Config, run: seq<State>, acts: seq<Action>, i: nat, j: nat, p: nat)
    requires IsRun(cfg, run, acts) && i <= j < |run| && p in run[i].procs
    ensures p in run[j].procs && |run[i].sh.log| <= |run[j].sh.log| && run[j].sh.log[..|run[i].sh.log|] == run[i].sh.log
  {
    hide Step, Init;
    assert LegalAt(cfg, run, acts, j);
    if i < j {
      LogGrows(cfg, run, acts, i, j - 1, p);
      ProcsGrow(cfg, run[j - 1], acts[j - 1], run[j]);
      StepSource(cfg, run[j - 1], acts[j - 1], run[j], p);
      var a, b, c := run[i].sh.log, run[j - 1].sh.log, run[j].sh.log;
      assert c[..|a|] == c[..|b|][..|a|];
    }
  }

  /**
   Event `e` was appended at action `c` by a refresh that read its key from the session at `k` and held it until
   `c`, and received its response at action `r` and held that until `c`.
   */
  ghost predicate OwnRefresh(run: seq<State>, acts: seq<Action>, e: nat, k: nat, r: nat, c: nat)
    requires |run| == |acts| + 1
  {
    && k < r < c < |acts|
    && |run[c].sh.log| <= e < |run[c + 1].sh.log| && run[c + 1].sh.log[e].Committed?
    && var ev := run[c + 1].sh.log[e];
       && HeldSince(run, ev.pid, ev.key, k, c)
       && acts[r] == Run(ev.pid, SyncReplied(SyncOk(ev.resp)))
       && (forall m :: r < m <= c ==> ev.pid in run[m].procs && ResponseOf(run[m].procs[ev.pid]) == Some(ev.resp))
       && (ev.onDemand ==> run[c].procs[ev.pid].Caller?)
  }

  /**
   Every commit in the log was made by its own refresh, and stored the decryption of that refresh's response
   under its key.
   */
  lemma CommitsAreOwnRefreshes(cfg: Config, run: seq<State>, acts: seq<Action>, j: nat, e: nat)
    requires IsRun(cfg, run, acts) && j < |run| && e < |run[j].sh.log| && run[j].sh.log[e].Committed?
    ensures var ev := run[j].sh.log[e];
            && IsVaultOf(cfg.env, ev.resp, ev.key, ev.cache)
            && exists k: nat, r: nat, c: nat :: c < j && OwnRefresh(run, acts, e, k, r, c) && run[c + 1].sh.log[e] == ev
    decreases j
  {
    hide Step, Init, IsVaultOf, Inv;
    assert LegalAt(cfg, run, acts, j);
    RunInv(cfg, run, acts, j);
    assert IsVaultOf(cfg.env, run[j].sh.log[e].resp, run[j].sh.log[e].key, run[j].sh.log[e].cache)
        by { InvCommit(cfg, run[j], e); }
    var ev := run[j].sh.log[e];
    if j == 0 {
      InitHolds(cfg, run[0]);
      InitLog(cfg, run[0]);
    } else if e < |run[j - 1].sh.log| {
      RunLogStep(cfg, run, acts, j);
      assert run[j - 1].sh.log[e] == ev;
      CommitsAreOwnRefreshes(cfg, run, acts, j - 1, e);
    } else {
      var c := j - 1;
      CommitterPresent(cfg, run, acts, j, e);
      var k := KeyWasRead(cfg, run, acts, ev.pid, c);
      var r := ResponseWasReceived(cfg, run, acts, ev.pid, c);
      ResponseAfterKey(cfg, run, acts, ev.pid, k, r, c);
      assert HeldSince(run, ev.pid, ev.key, k, c);
      assert OwnRefresh(run, acts, e, k, r, c);
    }
  }

  lemma InitLog(cfg: Config, s: State)
    requires Init(cfg, s)
    ensures s.sh.log == []
  {
  }

  lemma InvCommit(cfg: Config, s: State, e: nat)
    requires Inv(cfg, s) && e < |s.sh.log| && s.sh.log[e].Committed?
    ensures IsVaultOf(cfg.env, s.sh.log[e].resp, s.sh.log[e].key, s.sh.log[e].cache)
  {
  }

  lemma RunLogStep(cfg: Config, run: seq<State>, acts: seq<Action>, j: nat)
    requires IsRun(cfg, run, acts) && 0 < j < |run|
    ensures |run[j - 1].sh.log| <= |run[j].sh.log| && run[j].sh.log[..|run[j - 1].sh.log|] == run[j - 1].sh.log
  {
    hide Step, Init;
    assert LegalAt(cfg, run, acts, j);
    CreatorStays(cfg, run, acts, j);
    StepSource(cfg, run[j - 1], acts[j - 1], run[j], 0);
  }

  lemma {:induction false} CreatorStays(cfg: Config, run: seq<State>, acts: seq<Action>, j: nat)
    requires IsRun(cfg, run, acts) && j < |run|
    ensures 0 in run[j].procs
  {
    hide Step;
    assert LegalAt(cfg, run, acts, j);
    if j > 0 {
      CreatorStays(cfg, run, acts, j - 1);
      ProcsGrow(cfg, run[j - 1], acts[j - 1], run[j]);
    }
  }

  lemma CommitterPresent(cfg: Config, run: seq<State>, acts: seq<Action>, j: nat, e: nat)
    requires IsRun(cfg, run, acts) && 0 < j < |run|
    requires |run[j - 1].sh.log| <= e < |run[j].sh.log| && run[j].sh.log[e].Committed?
    ensures var ev := run[j].sh.log[e];
            && ev.pid in run[j - 1].procs
            && KeyOf(run[j - 1].procs[ev.pid]) == Some(ev.key) && ResponseOf(run[j - 1].procs[ev.pid]) == Some(ev.resp)
            && (ev.onDemand ==> run[j - 1].procs[ev.pid].Caller?)
  {
    hide Init, ProcStep, WellIndexed;
    assert LegalAt(cfg, run, acts, j);
    RunInv(cfg, run, acts, j - 1);
    StepKeeps(cfg, run[j - 1], acts[j - 1], run[j]);
    StepPid(cfg, run[j - 1], acts[j - 1], run[j], e);
    StepSource(cfg, run[j - 1], acts[j - 1], run[j], run[j].sh.log[e].pid);
  }

  lemma StepPid(cfg: Config, s: State, a: Action, s': State, e: nat)
    requires Indexed(s) && Step(cfg, s, a, s') && |s.sh.log| <= e < |s'.sh.log|
    ensures s'.sh.log[e].pid in s'.procs
  {
    hide RefreshStep, ReadStep, WellIndexed;
    if a.Run? {
      var q, me := a.p, s.procs[a.p];
      if RefreshOf(me).Some? {
        RefreshStepSource(cfg.env, s.sh, q, me.Caller?, RefreshOf(me).value, a.x);
      } else if me.Caller? && me.c.Reading? {
        ReadStepLog(cfg, s.sh, q, me, a.x);
      } else if me.TokenKeeper? && me.t.Some? {
        EnsureStepLog(cfg.env, s.sh, q, me.t.value, a.x);
      }
    }
  }

  /** While the key is being read no response is held, so the response comes after. */
  lemma ResponseAfterKey(cfg: Config, run: seq<State>, acts: seq<Action>, p: nat, k: nat, r: nat, c: nat)
    requires c < |run| && k < c && r < c && p in run[c].procs && KeyOf(run[c].procs[p]).Some?
    requires HeldSince(run, p, KeyOf(run[c].procs[p]).value, k, c)
    requires forall m :: r < m <= c ==> p in run[m].procs && ResponseOf(run[m].procs[p]) == ResponseOf(run[c].procs[p])
    requires ResponseOf(run[c].procs[p]).Some? && IsRun(cfg, run, acts)
            && acts[r] == Run(p, SyncReplied(SyncOk(ResponseOf(run[c].procs[p]).value)))
    ensures k < r
  {
    hide Init, Step;
    assert LegalAt(cfg, run, acts, k + 1);
    if r == k {
      StepAtReadKey(cfg, run[k], acts[k], run[k + 1], p);
    }
  }

  lemma StepAtReadKey(cfg: Config, s: State, a: Action, s': State, p: nat)
    requires Indexed(s) && Step(cfg, s, a, s') && p in s.procs && AtReadKey(s.procs[p])
    requires p in s'.procs
    ensures ResponseOf(s'.procs[p]).None?
  {
    hide LookupItem, WellIndexed;
  }

  // ----- from the vault server to the caller -----

  /**
   `v` is a secret of `item`, which commit `e` stored and whose name contains the requested one; if the
   request names a vault, `item` is the decryption of cipher `c`, owned by the one organization `o` so named.
   */
  ghost predicate ServedBy(env: Env, log: seq<Event>, req: SecretRequest, v: string, e: nat, item: Item, o: nat,
                           c: nat) {
    && e < |log| && log[e].Committed? && item in log[e].cache.items
    && IsSecret(item, v) && Partial(env, item, req.name)
    && (req.vault.Some? ==> ComesFrom(env, log[e].resp, log[e].key, item, req.vault.value, o, c))
  }

  ghost predicate Served(env: Env, log: seq<Event>, req: SecretRequest, v: string) {
    exists e: nat, item, o: nat, c: nat :: ServedBy(env, log, req, v, e, item, o, c)
  }

  lemma ServedFrom(cfg: Config, log: seq<Event>, e: nat, req: SecretRequest, v: string)
    returns (item: Item, o: nat, c: nat)
    requires e < |log| && log[e].Committed? && IsVaultOf(cfg.env, log[e].resp, log[e].key, log[e].cache)
    requires WellIndexed(log[e].cache) && Yields(cfg.env, log[e].cache, req, v)
    ensures ServedBy(cfg.env, log, req, v, e, item, o, c)
  {
    hide IsVaultOf, WellIndexed, IsSecret, Partial, ComesFrom;
    var cache := log[e].cache;
    item := LookupItem(cfg.env, cache, req.name, req.vault).value;
    assert item in cache.items && Partial(cfg.env, item, req.name)
        by { LookupHit(cfg.env, cache, req.name, req.vault); }
    o, c := 0, 0;
    if req.vault.Some? {
      ScopedProvenance(cfg.env, log[e].resp, log[e].key, cache, req.name, req.vault.value);
      o, c :| ComesFrom(cfg.env, log[e].resp, log[e].key, item, req.vault.value, o, c);
    }
  }

  lemma LookupHit(env: Env, cache: VaultCache, name: string, vault: Option<string>)
    requires WellIndexed(cache) && LookupItem(env, cache, name, vault).Ok?
    ensures var item := LookupItem(env, cache, name, vault).value; item in cache.items && Partial(env, item, name)
  {
    hide Partial, Find;
    var org := if vault.Some? then Some(cache.orgsByName[env.lower(vault.value)][0]) else None;
    FindIsBest(env, cache.items, name, org);
  }

  /**
   End to end: in every interleaving, each value of a successful fetch was extracted from an item of a
   committed cache; for a request scoped to a vault, that item is the decryption of a cipher owned by the
   only organization of that name, under the key of that organization's id, in the response that was committed.
   */
  lemma FetchedValuesAreServed(cfg: Config, run: seq<State>, acts: seq<Action>, p: nat, j: nat, i: nat)
    requires IsRun(cfg, run, acts) && j < |run| && p in run[j].procs
    requires run[j].procs[p].Caller? && run[j].procs[p].c.Returned? && run[j].procs[p].c.result.Ok?
    requires i < |run[j].procs[p].reqs|
    ensures i < |run[j].procs[p].c.result.value|
    ensures exists k :: 0 <= k < j && InCall(run[k], p)
              && Served(cfg.env, run[k].sh.log, run[j].procs[p].reqs[i], run[j].procs[p].c.result.value[i])
  {
    hide Init, Step, IsVaultOf, WellIndexed, Yields, ServedBy, Inv;
    FetchIsSnapshot(cfg, run, acts, p, j);
    var k: nat, cache: VaultCache :|
      && k < j && ReadsNow(run[k], p, cache, |run[j].procs[p].passes| == 2)
      && WellIndexed(cache) && Answers(cfg.env, cache, run[j].procs[p].reqs, run[j].procs[p].c.result);
    RunInv(cfg, run, acts, k);
    var e := ReadIsBacked(cfg, run[k], p, cache);
    var item, o, c := ServedFrom(cfg, run[k].sh.log, e, run[j].procs[p].reqs[i], run[j].procs[p].c.result.value[i]);
  }

  lemma ReadIsBacked(cfg: Config, s: State, p: nat, cache: VaultCache) returns (e: nat)
    requires Inv(cfg, s) && InCall(s, p) && s.procs[p].c.Reading? && s.sh.session.vault == Some(cache)
    ensures IsLastCommit(s.sh.log, e) && s.sh.log[e].cache == cache
    ensures IsVaultOf(cfg.env, s.sh.log[e].resp, s.sh.log[e].key, cache)
    ensures s.procs[p].c.own.Some? ==> s.procs[p].c.own.value <= e
  {
    hide IsVaultOf, PassesInv, ReadSoFar, WellIndexed, Paired;
    assert ProcLocal(cfg, s.sh, p, s.procs[p]);
    e :| IsLastCommit(s.sh.log, e) && s.sh.log[e].cache == cache;
  }

  /**
   In state `s` the call of `p` reads the cache of commit `e`, the last one; on its second pass that is its own
   refresh or a later one.
   */
  ghost predicate ReadsCommit(env: Env, s: State, p: nat, e: nat, second: bool) {
    && IsLastCommit(s.sh.log, e) && ReadsNow(s, p, s.sh.log[e].cache, second)
    && IsVaultOf(env, s.sh.log[e].resp, s.sh.log[e].key, s.sh.log[e].cache)
    && (second ==> s.procs[p].c.own.value <= e)
  }

  /**
   Whatever a fetch returns is the answer to all its requests from the vault that was committed last at some
   moment of the call.
   */
  lemma FetchIsCurrent(cfg: Config, run: seq<State>, acts: seq<Action>, p: nat, j: nat)
    requires IsRun(cfg, run, acts) && j < |run| && p in run[j].procs
    requires run[j].procs[p].Caller? && run[j].procs[p].c.Returned?
    ensures exists k: nat, e: nat ::
              && k < j && ReadsCommit(cfg.env, run[k], p, e, |run[j].procs[p].passes| == 2)
              && WellIndexed(run[k].sh.log[e].cache)
              && Answers(cfg.env, run[k].sh.log[e].cache, run[j].procs[p].reqs, run[j].procs[p].c.result)
  {
    hide Init, Step, IsVaultOf, WellIndexed, Answers, Inv;
    FetchIsSnapshot(cfg, run, acts, p, j);
    var k: nat, cache: VaultCache :|
      && k < j && ReadsNow(run[k], p, cache, |run[j].procs[p].passes| == 2)
      && WellIndexed(cache) && Answers(cfg.env, cache, run[j].procs[p].reqs, run[j].procs[p].c.result);
    RunInv(cfg, run, acts, k);
    var e := ReadIsBacked(cfg, run[k], p, cache);
    assert ReadsCommit(cfg.env, run[k], p, e, |run[j].procs[p].passes| == 2);
  }
}
