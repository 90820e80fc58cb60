/**
 How a call to `fetch_secrets` comes to its answer (src/vault/mod.rs:153-207): when it checks the cooldown, when it
 starts a refresh, and when it makes a second pass.
 */
module CallOutcomes {
  import opened Results
  import opened Crypto
  import opened Vault
  import opened Lookup
  import opened Sessions
  import opened Protocol
  import opened Invariants
  import opened Runs
  import opened Guarantees
  import opened Outcomes

  predicate StartedBy(log: seq<Event>, p: nat) {
    exists e :: 0 <= e < |log| && log[e].Started? && log[e].pid == p
  }

  predicate CommittedBy(log: seq<Event>, p: nat) {
    exists e :: 0 <= e < |log| && log[e].Committed? && log[e].pid == p
  }

  /** What the log says of the call at each of its stations. */
  predicate CallLogged(log: seq<Event>, p: nat, me: Proc)
    requires me.Caller?
  {
    match me.c
    case WantRead(own) => StartedBy(log, p) == CommittedBy(log, p) == own.Some?
    case Reading(own, _) => StartedBy(log, p) == CommittedBy(log, p) == own.Some?
    case WantMutex(_) => !StartedBy(log, p) && !CommittedBy(log, p)
    case CheckDue(_) => !StartedBy(log, p) && !CommittedBy(log, p)
    case Refreshing(_, _, _) => StartedBy(log, p) && !CommittedBy(log, p)
    case Returned(_) => (CommittedBy(log, p) <==> |me.passes| == 2) && (CommittedBy(log, p) ==> StartedBy(log, p))
  }

  /** An action by `p` on the cooldown check of its call. */
  predicate ChecksAt(run: seq<State>, acts: seq<Action>, p: nat, k: nat)
    requires |run| == |acts| + 1
  {
    k < |acts| && Moves(acts, p, k) && InCall(run[k], p) && run[k].procs[p].c.CheckDue?
  }

  ghost predicate Checked(run: seq<State>, acts: seq<Action>, p: nat, j: nat)
    requires |run| == |acts| + 1
  {
    exists k: nat :: k < j && ChecksAt(run, acts, p, k)
  }

  /** The check found the last refresh at least the cooldown ago. */
  ghost predicate FoundDue(cfg: Config, run: seq<State>, acts: seq<Action>, p: nat, j: nat)
    requires |run| == |acts| + 1
  {
    exists k: nat :: k < j && ChecksAt(run, acts, p, k)
                     && run[k].sh.now - run[k].sh.session.lastRefreshAt >= cfg.minRefreshInterval
  }

  /** Whether the call has come past its check. */
  predicate IsPastCheck(me: Proc)
    requires me.Caller?
  {
    match me.c
    case WantRead(own) => own.Some?
    case Reading(own, _) => own.Some?
    case Refreshing(_, _, _) => true
    case Returned(_) => StaleFirst(me)
    case _ => false
  }

  // ----- one step -----

  lemma NewEvents(cfg: Config, s: State, a: Action, s': State)
    requires Indexed(s) && Step(cfg, s, a, s')
    ensures |s.sh.log| <= |s'.sh.log| <= |s.sh.log| + 1 && s'.sh.log[..|s.sh.log|] == s.sh.log
    ensures |s'.sh.log| > |s.sh.log| ==> a.Run? && s'.sh.log[|s.sh.log|].pid == a.p && a.p in s.procs
  {
    hide RefreshStep, ReadStep, WellIndexed;
    if a.Run? {
      var q, me := a.p, s.procs[a.p];
      if RefreshOf(me).Some? {
        RefreshStepSource(cfg.env, s.sh, q, me.Caller?, RefreshOf(me).value, a.x);
      } else if me.Caller? && me.c.Reading? {
        ReadStepLog(cfg, s.sh, q, me, a.x);
      } else if me.TokenKeeper? && me.t.Some? {
        EnsureStepLog(cfg.env, s.sh, q, me.t.value, a.x);
      }
    }
  }

  /** An action of somebody else adds nothing of `p` to the log. */
  lemma LogOfOthers(cfg: Config, s: State, a: Action, s': State, p: nat)
    requires Indexed(s) && Step(cfg, s, a, s') && !(a.Run? && a.p == p)
    ensures StartedBy(s'.sh.log, p) == StartedBy(s.sh.log, p) && CommittedBy(s'.sh.log, p) == CommittedBy(s.sh.log, p)
  {
    NewEvents(cfg, s, a, s');
    hide Step, Indexed;
    SameOf(s.sh.log, s'.sh.log, p);
  }

  lemma SameOf(log: seq<Event>, log': seq<Event>, p: nat)
    requires |log| <= |log'| <= |log| + 1 && log'[..|log|] == log
    requires |log'| > |log| ==> log'[|log|].pid != p
    ensures StartedBy(log', p) == StartedBy(log, p) && CommittedBy(log', p) == CommittedBy(log, p)
  {
    assert forall e :: 0 <= e < |log| ==> log'[e] == log[e];
  }

  lemma OneMoreOf(log: seq<Event>, e: Event, p: nat)
    requires e.pid == p
    ensures StartedBy(log + [e], p) == (StartedBy(log, p) || e.Started?)
    ensures CommittedBy(log + [e], p) == (CommittedBy(log, p) || e.Committed?)
  {
    var log' := log + [e];
    assert log'[|log|] == e;
    assert forall i :: 0 <= i < |log| ==> log'[i] == log[i];
  }

  /** The refresh of the call adds a commit of its own to the log exactly when it ends well. */
  lemma RefreshLogged(env: Env, sh: Shared, p: nat, r: RefreshPc, x: Reply)
    ensures var res := RefreshStep(env, sh, p, true, r, x);
            res.Some? ==>
              if res.value.1 == Finished(true) then
                exists e: Event :: res.value.0.log == sh.log + [e] && e.Committed? && e.pid == p
              else res.value.0.log == sh.log
  {
    var res := RefreshStep(env, sh, p, true, r, x);
    if res.Some? {
      RefreshStepSource(env, sh, p, true, r, x);
      RefreshEndsLog(env, sh, p, true, r, x);
      OnlyCommitSucceeds(env, sh, p, r, x);
      hide RefreshStep;
      if res.value.1 == Finished(true) {
        assert res.value.0.log == sh.log + [res.value.0.log[|sh.log|]];
      }
    }
  }

  lemma OnlyCommitSucceeds(env: Env, sh: Shared, p: nat, r: RefreshPc, x: Reply)
    ensures var res := RefreshStep(env, sh, p, true, r, x);
            res.Some? && res.value.1.Finished? ==> (res.value.1.ok <==> r.Committing?)
  {
    hide IsVaultOf, EnsureStep, TokenStep;
  }

  /** One step of the call: the log, the passes and the check. */
  lemma CallMoves(cfg: Config, s: State, x: Reply, s': State, p: nat)
    requires Inv(cfg, s) && Indexed(s) && Step(cfg, s, Run(p, x), s') && p in s.procs && s.procs[p].Caller?
    requires CallLogged(s.sh.log, p, s.procs[p])
    ensures p in s'.procs && s'.procs[p].Caller? && CallLogged(s'.sh.log, p, s'.procs[p])
    ensures IsPastCheck(s'.procs[p]) <==> IsPastCheck(s.procs[p]) || s.procs[p].c.CheckDue?
    ensures StartedBy(s'.sh.log, p) <==>
            || StartedBy(s.sh.log, p)
            || (s.procs[p].c.CheckDue? && s.sh.now - s.sh.session.lastRefreshAt >= cfg.minRefreshInterval)
  {
    CallKept(cfg, s, p);
    CallStepIs(cfg, s, x, s', p);
    var me := s.procs[p];
    hide Inv, Step, CallStep, Indexed, CallLogged, IsPastCheck, StaleFirst;
    match me.c
    case Reading(_, _) => ReadingMoves(cfg, s, x, p);
    case CheckDue(_) => CheckMoves(cfg, s, x, p);
    case Refreshing(_, _, _) => RefreshingMoves(cfg, s, x, p);
    case _ => WaitingMoves(cfg, s, x, p);
  }

  lemma CallStepIs(cfg: Config, s: State, x: Reply, s': State, p: nat)
    requires Indexed(s) && Step(cfg, s, Run(p, x), s') && p in s.procs && s.procs[p].Caller?
    ensures p in s'.procs && CallStep(cfg, s.sh, p, s.procs[p], x) == Some((s'.sh, s'.procs[p]))
  {
    hide CallStep, WellIndexed;
  }

  /** What a step of the call must do to the log and to the check. */
  predicate MovedWell(cfg: Config, sh: Shared, p: nat, me: Proc, sh': Shared, me': Proc)
    requires me.Caller?
  {
    && me'.Caller? && CallLogged(sh'.log, p, me')
    && (IsPastCheck(me') <==> IsPastCheck(me) || me.c.CheckDue?)
    && (StartedBy(sh'.log, p) <==>
          StartedBy(sh.log, p) || (me.c.CheckDue? && sh.now - sh.session.lastRefreshAt >= cfg.minRefreshInterval))
  }

  predicate Kept(sh: Shared, me: Proc)
    requires me.Caller?
  {
    && sh.session.vault.Some?
    && match me.c
       case WantRead(own) => |me.passes| == (if own.Some? then 1 else 0) && (own.Some? ==> StaleFirst(me))
       case Reading(own, _) => |me.passes| == (if own.Some? then 1 else 0) && (own.Some? ==> StaleFirst(me))
       case Returned(_) => true
       case _ => |me.passes| == 1 && StaleFirst(me)
  }

  lemma ReadingMoves(cfg: Config, s: State, x: Reply, p: nat)
    requires Indexed(s) && p in s.procs && s.procs[p].Caller? && s.procs[p].c.Reading?
    requires Kept(s.sh, s.procs[p]) && CallLogged(s.sh.log, p, s.procs[p])
            && CallStep(cfg, s.sh, p, s.procs[p], x).Some?
    ensures var r := CallStep(cfg, s.sh, p, s.procs[p], x).value; MovedWell(cfg, s.sh, p, s.procs[p], r.0, r.1)
  {
    hide LookupItem, IsSecret, WellIndexed, StartedBy, CommittedBy;
  }

  lemma WaitingMoves(cfg: Config, s: State, x: Reply, p: nat)
    requires Indexed(s) && p in s.procs && s.procs[p].Caller?
            && (s.procs[p].c.WantRead? || s.procs[p].c.WantMutex? || s.procs[p].c.Returned?)
    requires Kept(s.sh, s.procs[p]) && CallLogged(s.sh.log, p, s.procs[p])
            && CallStep(cfg, s.sh, p, s.procs[p], x).Some?
    ensures var r := CallStep(cfg, s.sh, p, s.procs[p], x).value; MovedWell(cfg, s.sh, p, s.procs[p], r.0, r.1)
  {
    hide RefreshStep, ReadStep, WellIndexed, StartedBy, CommittedBy;
  }

  lemma CheckMoves(cfg: Config, s: State, x: Reply, p: nat)
    requires Indexed(s) && p in s.procs && s.procs[p].Caller? && s.procs[p].c.CheckDue?
    requires Kept(s.sh, s.procs[p]) && CallLogged(s.sh.log, p, s.procs[p])
            && CallStep(cfg, s.sh, p, s.procs[p], x).Some?
    ensures var r := CallStep(cfg, s.sh, p, s.procs[p], x).value; MovedWell(cfg, s.sh, p, s.procs[p], r.0, r.1)
  {
    OneMoreOf(s.sh.log, Started(p, s.sh.now), p);
    hide RefreshStep, ReadStep, WellIndexed, StartedBy, CommittedBy;
  }

  lemma RefreshingMoves(cfg: Config, s: State, x: Reply, p: nat)
    requires Indexed(s) && p in s.procs && s.procs[p].Caller? && s.procs[p].c.Refreshing?
    requires Kept(s.sh, s.procs[p]) && CallLogged(s.sh.log, p, s.procs[p])
            && CallStep(cfg, s.sh, p, s.procs[p], x).Some?
    ensures var r := CallStep(cfg, s.sh, p, s.procs[p], x).value; MovedWell(cfg, s.sh, p, s.procs[p], r.0, r.1)
  {
    RefreshLogged(cfg.env, s.sh, p, s.procs[p].c.r, x);
    var res := RefreshStep(cfg.env, s.sh, p, true, s.procs[p].c.r, x);
    if res.Some? && res.value.1 == Finished(true) {
      var e :| res.value.0.log == s.sh.log + [e] && e.Committed? && e.pid == p;
      OneMoreOf(s.sh.log, e, p);
    }
    hide RefreshStep, ReadStep, WellIndexed, StartedBy, CommittedBy;
  }

  lemma CallKept(cfg: Config, s: State, p: nat)
    requires Inv(cfg, s) && p in s.procs && s.procs[p].Caller?
    ensures Kept(s.sh, s.procs[p])
  {
    hide RefreshLocal, PassesInv, ReadSoFar, LogInv, WellIndexed, Paired, Backed;
    assert ProcLocal(cfg, s.sh, p, s.procs[p]);
  }

  // ----- the whole call -----

  /** Whoever is in the log is a process. */
  predicate LogKnown(s: State) {
    forall e :: 0 <= e < |s.sh.log| ==> s.sh.log[e].pid in s.procs
  }

  lemma {:induction false} LogKnowsProcs(cfg: Config, run: seq<State>, acts: seq<Action>, j: nat)
    requires j < |run| && IsRun(cfg, run, acts)
    ensures LogKnown(run[j])
    decreases j
  {
    hide Step, Init, Indexed;
    assert |run| == |acts| + 1;
    if j == 0 {
      FirstLog(cfg, run, acts);
    } else {
      StepOf(cfg, run, acts, j - 1);
      LogKnowsProcs(cfg, run, acts, j - 1);
      ProcsGrow(cfg, run[j - 1], acts[j - 1], run[j]);
      NewEvents(cfg, run[j - 1], acts[j - 1], run[j]);
      var a, b := run[j - 1].sh.log, run[j].sh.log;
      assert forall e :: 0 <= e < |a| ==> b[e] == a[e];
    }
  }

  lemma FirstLog(cfg: Config, run: seq<State>, acts: seq<Action>)
    requires IsRun(cfg, run, acts)
    ensures run[0].sh.log == []
  {
    assert LegalAt(cfg, run, acts, 0);
  }

  lemma NewCaller(cfg: Config, s: State, a: Action, s': State, p: nat)
    requires Indexed(s) && Step(cfg, s, a, s') && p !in s.procs && p in s'.procs && s'.procs[p].Caller?
    ensures s'.procs[p].c == WantRead(None) && s'.sh.log == s.sh.log && !(a.Run? && a.p == p)
  {
    hide ProcStep, WellIndexed;
  }

  lemma SameCaller(cfg: Config, s: State, a: Action, s': State, p: nat)
    requires Indexed(s) && Step(cfg, s, a, s') && p in s.procs && !(a.Run? && a.p == p)
    ensures p in s'.procs && s'.procs[p] == s.procs[p]
  {
    hide ProcStep, WellIndexed;
  }

  lemma CallerBefore(cfg: Config, s: State, a: Action, s': State, p: nat)
    requires Inv(cfg, s) && Indexed(s) && Step(cfg, s, a, s') && p in s.procs && p in s'.procs && s'.procs[p].Caller?
    ensures s.procs[p].Caller?
  {
    hide Inv, Step;
    PassesGrow(cfg, s, a, s', p);
  }

  lemma CheckedLater(cfg: Config, run: seq<State>, acts: seq<Action>, p: nat, j: nat)
    requires |run| == |acts| + 1 && j < |acts|
    ensures Checked(run, acts, p, j + 1) <==> Checked(run, acts, p, j) || ChecksAt(run, acts, p, j)
    ensures FoundDue(cfg, run, acts, p, j + 1) <==>
              (|| FoundDue(cfg, run, acts, p, j)
               || (ChecksAt(run, acts, p, j)
                    && run[j].sh.now - run[j].sh.session.lastRefreshAt >= cfg.minRefreshInterval))
  {
    hide ChecksAt;
  }

  ghost predicate CallTraced(cfg: Config, run: seq<State>, acts: seq<Action>, p: nat, j: nat)
    requires |run| == |acts| + 1 && j < |run| && p in run[j].procs && run[j].procs[p].Caller?
  {
    && CallLogged(run[j].sh.log, p, run[j].procs[p])
    && (IsPastCheck(run[j].procs[p]) <==> Checked(run, acts, p, j))
    && (StartedBy(run[j].sh.log, p) <==> FoundDue(cfg, run, acts, p, j))
  }

  lemma TracedNext(cfg: Config, run: seq<State>, acts: seq<Action>, p: nat, j: nat)
    requires |run| == |acts| + 1 && j < |acts| && p in run[j].procs && run[j].procs[p].Caller?
    requires p in run[j + 1].procs && run[j + 1].procs[p].Caller?
    requires CallTraced(cfg, run, acts, p, j) && IsRun(cfg, run, acts)
    ensures CallTraced(cfg, run, acts, p, j + 1)
  {
    var s, a, s' := run[j], acts[j], run[j + 1];
    StepOf(cfg, run, acts, j);
    RunInv(cfg, run, acts, j);
    hide IsRun, Step, Init, Inv, Indexed, CallLogged, IsPastCheck, StartedBy, CommittedBy, FoundDue, Checked;
    CheckedLater(cfg, run, acts, p, j);
    if a.Run? && a.p == p {
      CallMoves(cfg, s, a.x, s', p);
    } else {
      SameCaller(cfg, s, a, s', p);
      LogOfOthers(cfg, s, a, s', p);
      LoggedFrame(s.sh.log, s'.sh.log, p, s.procs[p]);
    }
  }

  lemma {:induction false} CallIsTraced(cfg: Config, run: seq<State>, acts: seq<Action>, p: nat, j: nat)
    requires j < |run| && p in run[j].procs && run[j].procs[p].Caller? && IsRun(cfg, run, acts)
    ensures |run| == |acts| + 1 && CallTraced(cfg, run, acts, p, j)
    decreases j
  {
    assert |run| == |acts| + 1;
    hide IsRun, Step, Init, Inv, Indexed, CallTraced;
    if j == 0 {
      NoCallerAtFirst(cfg, run, acts, p);
    } else {
      StepOf(cfg, run, acts, j - 1);
      RunInv(cfg, run, acts, j - 1);
      if p !in run[j - 1].procs {
        NewCaller(cfg, run[j - 1], acts[j - 1], run[j], p);
        LogKnowsProcs(cfg, run, acts, j - 1);
        NotBefore(cfg, run, acts, p, j - 1);
        FreshTraced(cfg, run, acts, p, j);
      } else {
        CallerBefore(cfg, run[j - 1], acts[j - 1], run[j], p);
        CallIsTraced(cfg, run, acts, p, j - 1);
        TracedNext(cfg, run, acts, p, j - 1);
      }
    }
  }

  lemma NoCallerAtFirst(cfg: Config, run: seq<State>, acts: seq<Action>, p: nat)
    requires IsRun(cfg, run, acts)
    ensures p in run[0].procs ==> !run[0].procs[p].Caller?
  {
    assert LegalAt(cfg, run, acts, 0);
    InitHasNoCaller(cfg, run[0]);
  }

  lemma LoggedFrame(log: seq<Event>, log': seq<Event>, p: nat, me: Proc)
    requires me.Caller? && CallLogged(log, p, me)
    requires StartedBy(log', p) == StartedBy(log, p) && CommittedBy(log', p) == CommittedBy(log, p)
    ensures CallLogged(log', p, me)
  {
    hide StartedBy, CommittedBy;
  }

  lemma FreshTraced(cfg: Config, run: seq<State>, acts: seq<Action>, p: nat, j: nat)
    requires |run| == |acts| + 1 && 0 < j < |run| && p in run[j].procs && run[j].procs[p].Caller?
            && run[j].procs[p].c == WantRead(None)
    requires run[j].sh.log == run[j - 1].sh.log && forall k :: 0 <= k < j ==> p !in run[k].procs
    requires LogKnown(run[j - 1])
    ensures CallTraced(cfg, run, acts, p, j)
  {
  }

  /**
   How a call comes to its answer. It checks the cooldown exactly if its first pass ends in a miss that a refresh
   might cure; starts a refresh exactly if that check finds the last one at least the cooldown ago; makes a second
   pass exactly if its refresh commits; and returns what its last pass gave.
   */
  lemma CallExactly(cfg: Config, run: seq<State>, acts: seq<Action>, p: nat, j: nat)
    requires j < |run| && p in run[j].procs && run[j].procs[p].Caller? && run[j].procs[p].c.Returned?
            && IsRun(cfg, run, acts)
    ensures |run| == |acts| + 1
    ensures var me, log := run[j].procs[p], run[j].sh.log;
            && 1 <= |me.passes| <= 2 && me.c.result == me.passes[|me.passes| - 1].result
            && (Checked(run, acts, p, j) <==> StaleResult(me.passes[0].result))
            && (StartedBy(log, p) <==> FoundDue(cfg, run, acts, p, j))
            && (|me.passes| == 2 <==> CommittedBy(log, p))
  {
    hide IsRun, Inv, StartedBy, CommittedBy, FoundDue, Checked, PassesInv;
    CallIsTraced(cfg, run, acts, p, j);
    RunInv(cfg, run, acts, j);
    ReturnedFacts(cfg, run[j], p);
  }
}
