/** What one call of `fetch_secrets` costs, and that it is never stuck. */
module Calls {
  import opened Results
  import opened Crypto
  import opened Vault
  import opened Lookup
  import opened Sessions
  import opened Protocol
  import opened Invariants
  import opened Runs

  // ----- costs -----

  /** What is counted: own steps, passes over the requests, refresh attempts, and sync requests to the server. */
  datatype Cost = Steps | Passes | Attempts | Syncs

  /** What the step that `me` is about to take costs. */
  function Charge(kind: Cost, me: Proc): nat
    requires me.Caller?
  {
    match kind
    case Steps => 1
    case Passes => if me.c.WantRead? then 1 else 0
    case Attempts => if me.c.WantMutex? then 1 else 0
    case Syncs => if me.c.Refreshing? && (me.c.r.AwaitSync? || me.c.r.AwaitRetry?) then 1 else 0
  }

  function TokenSteps(t: TokenPc): nat {
    match t
    case ReadRefreshToken => 8
    case AwaitToken(_) => 7
    case AwaitLogin => 6
    case WantTokenWrite(_) => 5
    case WritingToken(_, k) => if k < TOKEN_WRITES then TOKEN_WRITES - k else 0
  }

  function RefreshLeft(kind: Cost, r: RefreshPc): nat {
    match kind
    case Steps =>
      (match r
       case Ensuring(ReadExpiry) => 29
       case Ensuring(CompareExpiry(_)) => 28
       case Ensuring(Renewing(t)) => 19 + TokenSteps(t)
       case ReadToken => 19
       case ReadKey(_) => 18
       case AwaitSync(_, _) => 17
       case Reauthorizing(_, t) => 8 + TokenSteps(t)
       case RereadToken(_) => 7
       case AwaitRetry(_, _) => 6
       case Decrypting(_, _) => 5
       case WantCommit(_, _, _) => 4
       case Committing(_, _, _, stored) => if stored then 2 else 3)
    case Syncs =>
      if r.Ensuring? || r.ReadToken? || r.ReadKey? || r.AwaitSync? then 2
      else if r.Reauthorizing? || r.RereadToken? || r.AwaitRetry? then 1
      else 0
    case _ => 0
  }

  /** The most that a call can still cost. */
  function Left(kind: Cost, me: Proc): nat
    requires me.Caller?
  {
    var n := |me.reqs|;
    match (kind, me.c)
    case (Steps, WantRead(own)) => if own.None? then 2 * n + 35 else n + 2
    case (Steps, Reading(own, values)) =>
      (if |values| <= n then n - |values| + 1 else 1) + (if own.None? then n + 33 else 0)
    case (Steps, WantMutex(_)) => n + 33
    case (Steps, CheckDue(_)) => n + 32
    case (Steps, Refreshing(_, _, r)) => n + 2 + RefreshLeft(Steps, r)
    case (Passes, WantRead(own)) => if own.None? then 2 else 1
    case (Passes, Reading(own, _)) => if own.None? then 1 else 0
    case (Passes, Returned(_)) => 0
    case (Passes, _) => 1
    case (Attempts, WantRead(own)) => if own.None? then 1 else 0
    case (Attempts, Reading(own, _)) => if own.None? then 1 else 0
    case (Attempts, WantMutex(_)) => 1
    case (Syncs, WantRead(own)) => if own.None? then 2 else 0
    case (Syncs, Reading(own, _)) => if own.None? then 2 else 0
    case (Syncs, WantMutex(_)) => 2
    case (Syncs, CheckDue(_)) => 2
    case (Syncs, Refreshing(_, _, r)) => RefreshLeft(Syncs, r)
    case (_, _) => 0
  }

  lemma RefreshStepPays(kind: Cost, env: Env, sh: Shared, p: nat, onDemand: bool, r: RefreshPc, x: Reply)
    requires RefreshStep(env, sh, p, onDemand, r, x).Some?
    ensures var r' := RefreshStep(env, sh, p, onDemand, r, x).value.1;
            var paid := if kind == Steps || (kind == Syncs && (r.AwaitSync? || r.AwaitRetry?)) then 1 else 0;
            (if r'.More? then RefreshLeft(kind, r'.pc) else 0) + paid <= RefreshLeft(kind, r)
  {
    hide IsVaultOf, DecryptSymmetricKey;
  }

  /** A step of a call pays its charge out of what the call had left. */
  lemma StepPays(kind: Cost, cfg: Config, s: State, a: Action, s': State, p: nat)
    requires Indexed(s) && Step(cfg, s, a, s') && p in s.procs && s.procs[p].Caller?
    ensures p in s'.procs && s'.procs[p].Caller? && s'.procs[p].reqs == s.procs[p].reqs
    ensures a.Run? && a.p == p ==> Left(kind, s'.procs[p]) + Charge(kind, s.procs[p]) <= Left(kind, s.procs[p])
    ensures !(a.Run? && a.p == p) ==> s'.procs[p] == s.procs[p]
  {
    hide RefreshStep, RefreshLeft, EnsureStep, LookupItem, IsSecret, WellIndexed;
    if a.Run? && a.p == p && s.procs[p].c.Refreshing? {
      RefreshStepPays(kind, cfg.env, s.sh, p, true, s.procs[p].c.r, a.x);
    }
    assert RefreshLeft(Steps, Ensuring(ReadExpiry)) == 29 && RefreshLeft(Syncs, Ensuring(ReadExpiry)) == 2
        by { FirstRefreshLeft(); }
  }

  lemma FirstRefreshLeft()
    ensures RefreshLeft(Steps, Ensuring(ReadExpiry)) == 29 && RefreshLeft(Syncs, Ensuring(ReadExpiry)) == 2
  {
  }

  /** What the call of `p` has cost between states `i` and `j`. */
  function Spent(kind: Cost, run: seq<State>, acts: seq<Action>, p: nat, i: nat, j: nat): nat
    requires i <= j < |run| && |run| == |acts| + 1
  {
    if i == j then 0 else
    Spent(kind, run, acts, p, i, j - 1)
    + if acts[j - 1].Run? && acts[j - 1].p == p && p in run[j - 1].procs && run[j - 1].procs[p].Caller?
      then Charge(kind, run[j - 1].procs[p]) else 0
  }

  lemma {:induction false} CallPays(kind: Cost, cfg: Config, run: seq<State>, acts: seq<Action>, p: nat, i: nat, j: nat)
    requires IsRun(cfg, run, acts) && i <= j < |run| && p in run[i].procs && run[i].procs[p].Caller?
    ensures p in run[j].procs && run[j].procs[p].Caller? && run[j].procs[p].reqs == run[i].procs[p].reqs
    ensures Left(kind, run[j].procs[p]) + Spent(kind, run, acts, p, i, j) <= Left(kind, run[i].procs[p])
  {
    hide Init, Step, Left, Charge, Indexed;
    if i < j {
      CallPays(kind, cfg, run, acts, p, i, j - 1);
      assert LegalAt(cfg, run, acts, j);
      StepPays(kind, cfg, run[j - 1], acts[j - 1], run[j], p);
    }
  }

  /**
   From its start a call makes at most two passes, one refresh attempt and two sync requests, and takes at
   most 2n + 35 steps for n requests, whatever the others do; so it ends if every step it waits for comes.
   */
  lemma CallIsBounded(cfg: Config, run: seq<State>, acts: seq<Action>, p: nat, i: nat, j: nat)
    requires IsRun(cfg, run, acts) && i <= j < |run| && p in run[i].procs && run[i].procs[p].Caller?
    requires Fresh(run[i].procs[p])
    ensures Spent(Steps, run, acts, p, i, j) <= 2 * |run[i].procs[p].reqs| + 35
    ensures Spent(Passes, run, acts, p, i, j) <= 2
    ensures Spent(Attempts, run, acts, p, i, j) <= 1
    ensures Spent(Syncs, run, acts, p, i, j) <= 2
  {
    hide Init, Step, Spent;
    CallPays(Steps, cfg, run, acts, p, i, j);
    CallPays(Passes, cfg, run, acts, p, i, j);
    CallPays(Attempts, cfg, run, acts, p, i, j);
    CallPays(Syncs, cfg, run, acts, p, i, j);
  }

  // ----- no deadlock -----

  /** Given a suitable reply, `p` can take a step now. */
  ghost predicate Enabled(cfg: Config, s: State, p: nat)
    requires Indexed(s)
  {
    p in s.procs && exists x :: ProcStep(cfg, s.sh, p, s.procs[p], x).Some?
  }

  lemma SecretExists(item: Item) returns (v: string)
    ensures IsSecret(item, v)
  {
    var order := EnumerationExists(item.fields);
    v := ExtractIn(item, order);
    SecretsAreExtractions(item, v);
  }

  lemma {:induction false} ItemsExist(env: Env, resp: SyncResponse, symKey: SymmetricKey, n: nat)
    returns (items: seq<Item>, from: seq<nat>)
    requires n <= |resp.ciphers|
    ensures KeptFrom(env, resp, symKey, n, items, from)
  {
    hide KeptFrom, Decrypts, ItemOf;
    if n == 0 {
      KeptNone(env, resp, symKey);
      items, from := [], [];
    } else {
      items, from := ItemsExist(env, resp, symKey, n - 1);
      if Decrypts(env, resp, symKey, resp.ciphers[n - 1]) {
        KeptPush(env, resp, symKey, n - 1, items, from);
        items, from := items + [ItemOf(env, resp, symKey, resp.ciphers[n - 1])], from + [n - 1];
      } else {
        KeptSkip(env, resp, symKey, n - 1, items, from);
      }
    }
  }

  lemma {:induction false} IndexExists(env: Env, orgs: seq<Organization>) returns (index: map<string, seq<string>>)
    ensures IsOrgIndex(env, orgs, index)
  {
    if orgs == [] {
      index := map[];
    } else {
      index := IndexExists(env, orgs[..|orgs| - 1]);
      var last := orgs[|orgs| - 1];
      var name := env.lower(last.name);
      index := index[name := (if name in index then index[name] else []) + [last.id]];
    }
  }

  lemma VaultExists(env: Env, resp: SyncResponse, symKey: SymmetricKey) returns (cache: VaultCache)
    ensures IsVaultOf(env, resp, symKey, cache)
  {
    hide KeptFrom, IsOrgIndex;
    var items, from := ItemsExist(env, resp, symKey, |resp.ciphers|);
    var index := IndexExists(env, resp.organizations);
    cache := VaultCache(items, index);
  }

  /** Whoever holds the write lock or a read lock can go on. */
  lemma LockHolderEnabled(cfg: Config, s: State, q: nat)
    requires Inv(cfg, s) && Indexed(s) && (s.sh.writer == Some(q) || q in s.sh.readers)
    ensures Enabled(cfg, s, q)
  {
    hide IsVaultOf, Answers, PassesInv, Paired, Backed, LogInv, LookupItem, IsSecret;
    var me := s.procs[q];
    assert ProcLocal(cfg, s.sh, q, me);
    if q in s.sh.readers {
      var x := NoReply;
      if s.sh.session.vault.Some? && |me.c.values| < |me.reqs| {
        var item := LookupItem(cfg.env, s.sh.session.vault.value, me.reqs[|me.c.values|].name,
            me.reqs[|me.c.values|].vault);
        if item.Ok? {
          var v := SecretExists(item.value);
          x := Extracted(v);
        }
      }
      assert ProcStep(cfg, s.sh, q, me, x).Some?;
    } else {
      assert ProcStep(cfg, s.sh, q, me, NoReply).Some?;
    }
  }

  /** With no lock held by anyone, a refresh can go on. */
  lemma RefreshEnabled(env: Env, sh: Shared, p: nat, onDemand: bool, r: RefreshPc) returns (x: Reply)
    requires sh.writer.None? && sh.readers == {} && RefreshLocal(env, sh, p, r)
    ensures RefreshStep(env, sh, p, onDemand, r, x).Some?
  {
    hide IsVaultOf, DecryptSymmetricKey, Paired, Backed;
    var t := match r case Ensuring(Renewing(t)) => Some(t) case Reauthorizing(_, t) => Some(t) case _ => None;
    x := match t
         case Some(AwaitToken(_)) => TokenReply(None)
         case Some(AwaitLogin) => LoginReply(None)
         case _ => SyncReplied(SyncError);
    if r.Decrypting? {
      var cache := VaultExists(env, r.resp, r.key);
      x := Decoded(cache);
    }
  }

  /**
   A call that has not returned is never stuck: it can step, or the holder of the refresh mutex can, or the
   holder of the session lock can.
   */
  lemma NoDeadlock(cfg: Config, s: State, p: nat)
    requires Inv(cfg, s) && Indexed(s) && InCall(s, p)
    ensures exists q :: Enabled(cfg, s, q)
              && (q == p || s.sh.mutex == Some(q) || s.sh.writer == Some(q) || q in s.sh.readers)
  {
    hide IsVaultOf, Answers, PassesInv, Paired, Backed, LogInv, RefreshStep, RefreshLocal, LookupItem, IsSecret,
         Enabled;
    if s.sh.writer.Some? {
      LockHolderEnabled(cfg, s, s.sh.writer.value);
    } else if s.sh.readers != {} {
      var q :| q in s.sh.readers;
      LockHolderEnabled(cfg, s, q);
    } else {
      var q := if s.sh.mutex.Some? then s.sh.mutex.value else p;
      UnlockedEnabled(cfg, s, q);
    }
  }

  lemma UnlockedEnabled(cfg: Config, s: State, q: nat)
    requires Inv(cfg, s) && Indexed(s) && s.sh.writer.None? && s.sh.readers == {}
    requires s.sh.mutex == Some(q) || (s.sh.mutex.None? && InCall(s, q))
    ensures Enabled(cfg, s, q)
  {
    hide IsVaultOf, Answers, PassesInv, Paired, Backed, LogInv, RefreshStep, RefreshLocal, LookupItem, IsSecret;
    var me := s.procs[q];
    assert ProcLocal(cfg, s.sh, q, me);
    var x := NoReply;
    if me.c.Refreshing? {
      x := RefreshEnabled(cfg.env, s.sh, q, true, me.c.r);
    }
    assert ProcStep(cfg, s.sh, q, me, x).Some?;
  }
}
