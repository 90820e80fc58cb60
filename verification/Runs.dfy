/** What holds over every run of the vault client, however its processes interleave. */
module Runs {
  import opened Results
  import opened Vault
  import opened Lookup
  import opened Sessions
  import opened Protocol
  import opened Invariants

  predicate Indexed(s: State) {
    s.sh.session.vault.Some? ==> WellIndexed(s.sh.session.vault.value)
  }

  /**
   State `i` of a run is initial, or follows from the one before. (`Indexed` only makes `Step` defined; it never
   fails.)
   */
  ghost predicate LegalAt(cfg: Config, run: seq<State>, acts: seq<Action>, i: nat)
    requires |run| == |acts| + 1 && i < |run|
  {
    if i == 0 then Init(cfg, run[0])
    else Indexed(run[i - 1]) && Step(cfg, run[i - 1], acts[i - 1], run[i])
  }

  /** A run: one state more than actions, every state legal. */
  ghost predicate IsRun(cfg: Config, run: seq<State>, acts: seq<Action>) {
    |run| == |acts| + 1 && forall i :: 0 <= i < |run| ==> LegalAt(cfg, run, acts, i)
  }

  lemma {:induction false} RunInv(cfg: Config, run: seq<State>, acts: seq<Action>, i: nat)
    requires IsRun(cfg, run, acts) && i < |run|
    ensures Inv(cfg, run[i])
  {
    hide Inv, Init, Step;
    assert LegalAt(cfg, run, acts, i);
    if i == 0 {
      InitHolds(cfg, run[0]);
    } else {
      RunInv(cfg, run, acts, i - 1);
      StepKeeps(cfg, run[i - 1], acts[i - 1], run[i]);
    }
  }

  lemma StepOf(cfg: Config, run: seq<State>, acts: seq<Action>, i: nat)
    requires IsRun(cfg, run, acts) && i < |acts|
    ensures Indexed(run[i]) && Step(cfg, run[i], acts[i], run[i + 1])
  {
    assert LegalAt(cfg, run, acts, i + 1);
  }

  // ----- the cooldown -----

  /** In every reachable state each recorded refresh start is a cooldown after every earlier commit. */
  lemma RefreshesCoolDown(cfg: Config, run: seq<State>, acts: seq<Action>, i: nat)
    requires IsRun(cfg, run, acts) && i < |run|
    ensures CooledDown(cfg, run[i].sh.log) && Spaced(cfg, run[i].sh.log) && Timed(run[i].sh.log, run[i].sh.now)
  {
    hide Init, Step;
    RunInv(cfg, run, acts, i);
  }

  /** So between two on-demand starts closer than the cooldown nothing was committed. */
  lemma CloseStarts(cfg: Config, run: seq<State>, acts: seq<Action>, i: nat, d: nat, e: nat)
    requires IsRun(cfg, run, acts) && i < |run| && d < e < |run[i].sh.log|
    requires run[i].sh.log[d].Started? && run[i].sh.log[e].Started?
    requires run[i].sh.log[e].at < run[i].sh.log[d].at + cfg.minRefreshInterval
    ensures forall c :: d < c < e ==> !run[i].sh.log[c].Committed?
  {
    hide IsRun;
    RefreshesCoolDown(cfg, run, acts, i);
  }

  /** On-demand commits with a time in [from, to]. */
  function CommitsWithin(log: seq<Event>, from: int, to: int): nat {
    if log == [] then 0 else
    var e := log[|log| - 1];
    CommitsWithin(log[..|log| - 1], from, to) + if OnDemandCommit(e) && from <= e.at <= to then 1 else 0
  }

  function Gaps(n: nat, min: nat): nat {
    if n == 0 then 0 else Gaps(n - 1, min) + min
  }

  lemma {:induction false} GapsAre(n: nat, min: nat)
    ensures Gaps(n, min) == n * min
  {
    if n > 0 {
      GapsAre(n - 1, min);
    }
  }

  lemma Monotone(a: nat, b: nat, m: nat)
    ensures a >= b ==> a * m >= b * m
  {
    if a >= b {
      assert a * m == b * m + (a - b) * m;
    }
  }

  lemma GapsBound(n: nat, min: nat, w: nat)
    requires min > 0 && Gaps(n, min) <= w
    ensures n <= w / min
  {
    GapsAre(n, min);
    var q := w / min;
    assert w == q * min + w % min;
    Monotone(n, q + 1, min);
  }

  lemma {:induction false} CommitsSpread(cfg: Config, log: seq<Event>, from: int, to: int) returns (j: nat)
    requires Spaced(cfg, log) && CommitsWithin(log, from, to) > 0
    ensures j < |log| && OnDemandCommit(log[j]) && log[j].at <= to
    ensures log[j].at >= from + Gaps(CommitsWithin(log, from, to) - 1, cfg.minRefreshInterval)
  {
    var front, e := log[..|log| - 1], log[|log| - 1];
    var n := CommitsWithin(front, from, to);
    if n == 0 {
      j := |log| - 1;
    } else {
      j := CommitsSpread(cfg, front, from, to);
      if OnDemandCommit(e) && from <= e.at <= to {
        assert e.at >= log[j].at + cfg.minRefreshInterval;
        j := |log| - 1;
      }
    }
  }

  /** However many callers miss at once, a window of length `w` sees at most w / min + 1 on-demand refreshes succeed. */
  lemma FewRefreshesPerWindow(cfg: Config, run: seq<State>, acts: seq<Action>, i: nat, from: int, w: nat)
    requires IsRun(cfg, run, acts) && i < |run| && cfg.minRefreshInterval > 0
    ensures CommitsWithin(run[i].sh.log, from, from + w) <= w / cfg.minRefreshInterval + 1
  {
    hide Init, Step;
    RefreshesCoolDown(cfg, run, acts, i);
    var log, min := run[i].sh.log, cfg.minRefreshInterval;
    var n := CommitsWithin(log, from, from + w);
    if n > 0 {
      var j := CommitsSpread(cfg, log, from, from + w);
      GapsBound(n - 1, min, w);
    }
  }

  // ----- one snapshot per fetch -----

  predicate InCall(s: State, p: nat) {
    p in s.procs && s.procs[p].Caller? && !s.procs[p].c.Returned?
  }

  /**
   In state `s` the call of `p` reads `cache`, the session's; on its second pass, after its own refresh was
   committed.
   */
  predicate ReadsNow(s: State, p: nat, cache: VaultCache, second: bool) {
    && InCall(s, p) && s.procs[p].c.Reading? && s.sh.session.vault == Some(cache)
    && (s.procs[p].c.own.Some? <==> second)
    && (second ==> OwnCommit(s.sh.log, s.procs[p].c.own.value, p))
  }

  /** What one step does to the record of passes of a caller. */
  lemma PassesGrow(cfg: Config, s: State, a: Action, s': State, p: nat)
    requires Inv(cfg, s) && Indexed(s) && Step(cfg, s, a, s') && p in s'.procs && s'.procs[p].Caller?
    ensures p !in s.procs ==> s'.procs[p].passes == []
    ensures p in s.procs ==> s.procs[p].Caller? && s.procs[p].reqs == s'.procs[p].reqs
    ensures p in s.procs ==>
              var before, after := s.procs[p].passes, s'.procs[p].passes;
              || after == before
              || (|after| == |before| + 1 && after[..|before|] == before
                   && ReadsNow(s, p, after[|before|].cache, |before| == 1))
  {
    hide SharedInv, Answers, LookupItem, IsSecret, RefreshStep, EnsureStep, IsVaultOf, PassesInv, ReadSoFar,
         WellIndexed, Paired, Backed;
    if p in s.procs {
      assert ProcLocal(cfg, s.sh, p, s.procs[p]);
    }
  }

  /** Each recorded pass read the cache the session held at some moment of the call. */
  lemma {:induction false} PassWasRead(cfg: Config, run: seq<State>, acts: seq<Action>, p: nat, j: nat, i: nat)
    returns (k: nat)
    requires IsRun(cfg, run, acts) && j < |run| && p in run[j].procs && run[j].procs[p].Caller?
    requires i < |run[j].procs[p].passes|
    ensures k <= j && ReadsNow(run[k], p, run[j].procs[p].passes[i].cache, i == 1)
    decreases j
  {
    hide Inv, Init, Step, ReadsNow;
    assert LegalAt(cfg, run, acts, j);
    RunInv(cfg, run, acts, j);
    if j == 0 {
      InitHasNoCaller(cfg, run[0]);
    } else {
      RunInv(cfg, run, acts, j - 1);
      PassesGrow(cfg, run[j - 1], acts[j - 1], run[j], p);
      if i < |run[j - 1].procs[p].passes| {
        k := PassWasRead(cfg, run, acts, p, j - 1, i);
      } else {
        k := j - 1;
      }
    }
  }

  lemma InitHasNoCaller(cfg: Config, s: State)
    requires Init(cfg, s)
    ensures forall p :: p in s.procs ==> !s.procs[p].Caller?
  {
  }

  lemma ReturnedFacts(cfg: Config, s: State, p: nat)
    requires Inv(cfg, s) && p in s.procs && s.procs[p].Caller? && s.procs[p].c.Returned?
    ensures PassesInv(cfg.env, s.procs[p].reqs, s.procs[p].passes) && Concluded(s.procs[p].passes, s.procs[p].c.result)
  {
    assert ProcLocal(cfg, s.sh, p, s.procs[p]);
  }

  /**
   Whatever a fetch returns, success or failure, is the answer to all its requests from one single cache
   that the session held while the call was running; if a refresh came first, from a moment after that
   refresh was committed.
   */
  lemma FetchIsSnapshot(cfg: Config, run: seq<State>, acts: seq<Action>, p: nat, j: nat)
    requires IsRun(cfg, run, acts) && j < |run| && p in run[j].procs
    requires run[j].procs[p].Caller? && run[j].procs[p].c.Returned?
    ensures exists k: nat, cache ::
              && k < j && ReadsNow(run[k], p, cache, |run[j].procs[p].passes| == 2)
              && WellIndexed(cache) && Answers(cfg.env, cache, run[j].procs[p].reqs, run[j].procs[p].c.result)
  {
    hide Inv, Init, Step, Answers, WellIndexed;
    RunInv(cfg, run, acts, j);
    ReturnedFacts(cfg, run[j], p);
    var passes := run[j].procs[p].passes;
    var i := |passes| - 1;
    var k := PassWasRead(cfg, run, acts, p, j, i);
    assert k != j by { assert InCall(run[k], p); }
    assert ReadsNow(run[k], p, passes[i].cache, |passes| == 2);
  }

  // ----- when a refresh is attempted -----

  /** The call of `p` asks for the refresh mutex in some state up to `j`. */
  ghost predicate Attempted(run: seq<State>, p: nat, j: nat)
    requires j < |run|
  {
    exists k :: 0 <= k <= j && InCall(run[k], p) && run[k].procs[p].c.WantMutex?
  }

  predicate StaleFirst(me: Proc)
    requires me.Caller?
  {
    me.passes != [] && StaleResult(me.passes[0].result)
  }

  lemma StaleStep(cfg: Config, s: State, a: Action, s': State, p: nat)
    requires Inv(cfg, s) && Indexed(s) && Step(cfg, s, a, s') && p in s'.procs && s'.procs[p].Caller?
    ensures p !in s.procs ==> !s'.procs[p].c.WantMutex? && !StaleFirst(s'.procs[p])
    ensures p in s.procs ==>
              && s.procs[p].Caller?
              && (s'.procs[p].c.WantMutex? ==> StaleFirst(s'.procs[p]))
              && (StaleFirst(s'.procs[p]) <==> StaleFirst(s.procs[p]) || s'.procs[p].c.WantMutex?)
  {
    hide SharedInv, Answers, LookupItem, IsSecret, RefreshStep, EnsureStep, IsVaultOf, PassesInv, ReadSoFar,
         WellIndexed, Paired, Backed;
    if p in s.procs {
      assert ProcLocal(cfg, s.sh, p, s.procs[p]);
    }
  }

  /** A call attempts a refresh exactly when its first pass ends in a failure a refresh might cure. */
  lemma {:induction false} AttemptedExactly(cfg: Config, run: seq<State>, acts: seq<Action>, p: nat, j: nat)
    requires IsRun(cfg, run, acts) && j < |run| && p in run[j].procs && run[j].procs[p].Caller?
    ensures Attempted(run, p, j) <==> StaleFirst(run[j].procs[p])
  {
    hide Inv, Init, Step;
    assert LegalAt(cfg, run, acts, j);
    RunInv(cfg, run, acts, j);
    if j == 0 {
      InitHasNoCaller(cfg, run[0]);
    } else {
      RunInv(cfg, run, acts, j - 1);
      StaleStep(cfg, run[j - 1], acts[j - 1], run[j], p);
      if p in run[j - 1].procs {
        AttemptedExactly(cfg, run, acts, p, j - 1);
      } else {
        NotBefore(cfg, run, acts, p, j - 1);
      }
    }
  }

  lemma ProcsGrow(cfg: Config, s: State, a: Action, s': State)
    requires Indexed(s) && Step(cfg, s, a, s')
    ensures s.procs.Keys <= s'.procs.Keys
  {
    hide ProcStep;
  }

  lemma {:induction false} NotBefore(cfg: Config, run: seq<State>, acts: seq<Action>, p: nat, j: nat)
    requires IsRun(cfg, run, acts) && j < |run| && p !in run[j].procs
    ensures forall k :: 0 <= k <= j ==> p !in run[k].procs
  {
    hide Init, Step;
    assert LegalAt(cfg, run, acts, j);
    if j > 0 {
      ProcsGrow(cfg, run[j - 1], acts[j - 1], run[j]);
      NotBefore(cfg, run, acts, p, j - 1);
    }
  }
}
