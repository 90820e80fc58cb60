/**
 The tokens: which ones a request carries, and what a renewal leaves in the session (src/vault/mod.rs:213-223,
 322-362).
 */
module Renewals {
  import opened Results
  import opened Crypto
  import opened Vault
  import opened Lookup
  import opened Sessions
  import opened Protocol
  import opened Invariants
  import opened Runs
  import opened Guarantees
  import opened Outcomes

  function TokenAt(s: State, p: nat): Option<TokenPc> {
    if InRound(s, p) then TokenPcOf(TaskOf(s.procs[p]).value) else None
  }

  // ----- one step -----

  /** Where a renewal can stand after a step of its process. */
  lemma TokenSource(cfg: Config, s: State, x: Reply, s': State, p: nat)
    requires Indexed(s) && Step(cfg, s, Run(p, x), s') && InRound(s, p) && TokenAt(s', p).Some?
    ensures TokenAt(s', p) == Some(ReadRefreshToken) ||
            (TokenAt(s, p).Some? &&
             TokenStep(cfg.env, s.sh, p, TokenAt(s, p).value, x) == Some((s'.sh, More(TokenAt(s', p).value))))
  {
    RoundMoves(cfg, s, x, s', p);
    hide Step, Indexed, TokenStep;
  }

  lemma NewRound(cfg: Config, s: State, x: Reply, s': State, p: nat)
    requires Indexed(s) && Step(cfg, s, Run(p, x), s') && !InRound(s, p)
    ensures TokenAt(s', p).None?
  {
    hide LookupItem, IsSecret, RefreshStep, EnsureStep, WellIndexed;
  }

  // ----- what a write of tokens leaves -----

  /** The session with the first `k` of the four assignments made, the expiry counted from `at`. */
  function Partly(s: SessionState, ch: Change, k: nat, at: int): SessionState {
    SessionState(
      if k >= 1 then ch.accessToken else s.accessToken,
      if k >= 2 && ch.refreshToken.Some? then ch.refreshToken.value else s.refreshToken,
      if k >= 3 then at + ch.lifetime else s.expiresAt,
      if k >= 4 && ch.symKey.Some? then ch.symKey.value else s.symKey,
      s.vault, s.lastRefreshAt)
  }

  /**
   The write of `ch` by `p` that stands at assignment `k` in state `j` took the lock in state `b`, with `at`
   between.
   */
  predicate WritesSince(run: seq<State>, p: nat, j: nat, ch: Change, k: nat, b: nat, at: nat)
    requires j < |run|
  {
    && b <= at <= j && TokenAt(run[b], p) == Some(WritingToken(ch, 0))
    && run[j].sh.session == Partly(run[b].sh.session, ch, k, run[at].sh.now)
  }

  lemma WriterHasLock(cfg: Config, s: State, p: nat)
    requires Inv(cfg, s) && TokenAt(s, p).Some? && TokenAt(s, p).value.WritingToken?
    ensures s.sh.writer == Some(p) && TokenAt(s, p).value.k < 4
  {
    assert ProcLocal(cfg, s.sh, p, s.procs[p]);
  }

  lemma OthersKeepSession(cfg: Config, s: State, a: Action, s': State, p: nat)
    requires Inv(cfg, s) && Indexed(s) && Step(cfg, s, a, s') && s.sh.writer == Some(p) && !(a.Run? && a.p == p)
    ensures s'.sh.session == s.sh.session
  {
    hide Inv, ProcStep, Indexed;
    StepKeeps(cfg, s, a, s');
  }

  /** One assignment, by cases. */
  lemma WriteMoves(env: Env, sh: Shared, p: nat, ch: Change, k: nat, x: Reply, s: SessionState, at: int)
    requires TokenStep(env, sh, p, WritingToken(ch, k), x).Some?
    requires sh.session == Partly(s, ch, k, at) && (k == 2 ==> at == sh.now)
    ensures k < 4
    ensures var r := TokenStep(env, sh, p, WritingToken(ch, k), x).value;
            && r.1 == (if k < 3 then More(WritingToken(ch, k + 1)) else Finished(true))
            && r.0.session == Partly(s, ch, k + 1, at)
  {
  }

  /** One assignment more, and the moment the expiry is counted from. */
  lemma WriteNext(cfg: Config, run: seq<State>, acts: seq<Action>, p: nat, j: nat, b: nat, at: nat) returns (at': nat)
    requires |run| == |acts| + 1 && j < |acts| && Moves(acts, p, j)
    requires TokenAt(run[j], p).Some? && TokenAt(run[j], p).value.WritingToken?
    requires TokenAt(run[j + 1], p).Some? && TokenAt(run[j + 1], p).value.WritingToken?
    requires TokenAt(run[j + 1], p).value.k > 0
    requires WritesSince(run, p, j, TokenAt(run[j], p).value.ch, TokenAt(run[j], p).value.k, b, at)
    requires IsRun(cfg, run, acts)
    ensures WritesSince(run, p, j + 1, TokenAt(run[j], p).value.ch, TokenAt(run[j], p).value.k + 1, b, at')
  {
    StepOf(cfg, run, acts, j);
    hide IsRun, Step, Indexed, Partly, TokenAt;
    var t := TokenAt(run[j], p).value;
    at' := if t.k == 2 then j else at;
    if t.k == 2 {
      AtIsFree(run[b].sh.session, t.ch, 2, run[at].sh.now);
    }
    WriteStepIs(cfg, run[j], acts[j].x, run[j + 1], p, run[b].sh.session, run[at'].sh.now);
  }

  lemma {:induction false} WriteSoFar(cfg: Config, run: seq<State>, acts: seq<Action>, p: nat, j: nat)
    returns (b: nat, at: nat)
    requires j < |run| && TokenAt(run[j], p).Some? && TokenAt(run[j], p).value.WritingToken? && IsRun(cfg, run, acts)
    ensures WritesSince(run, p, j, TokenAt(run[j], p).value.ch, TokenAt(run[j], p).value.k, b, at)
    decreases j
  {
    assert |run| == |acts| + 1;
    hide IsRun, Inv, Step, Indexed, TokenAt;
    var t := TokenAt(run[j], p).value;
    if t.k == 0 {
      b, at := j, j;
      NothingYet(run[j].sh.session, t.ch, run[j].sh.now);
    } else if j == 0 {
      NoWriteAtFirst(cfg, run, acts, p);
    } else {
      StepOf(cfg, run, acts, j - 1);
      RunInv(cfg, run, acts, j - 1);
      WriteCameFrom(cfg, run[j - 1], acts[j - 1], run[j], p);
      b, at := WriteSoFar(cfg, run, acts, p, j - 1);
      if Moves(acts, p, j - 1) {
        at := WriteNext(cfg, run, acts, p, j - 1, b, at);
      }
    }
  }

  lemma NothingYet(s: SessionState, ch: Change, at: int)
    ensures Partly(s, ch, 0, at) == s
  {
  }

  lemma NoWriteAtFirst(cfg: Config, run: seq<State>, acts: seq<Action>, p: nat)
    requires IsRun(cfg, run, acts)
    ensures TokenAt(run[0], p).None?
  {
    assert LegalAt(cfg, run, acts, 0);
  }

  /** Before the third assignment the moment it is counted from does not matter. */
  lemma AtIsFree(s: SessionState, ch: Change, k: nat, at: int)
    requires k < 3
    ensures forall other: int :: Partly(s, ch, k, other) == Partly(s, ch, k, at)
  {
  }

  /** A write that stands at an assignment after the first stood there before, or at the one before it. */
  lemma WriteCameFrom(cfg: Config, s: State, a: Action, s': State, p: nat)
    requires Inv(cfg, s) && Indexed(s) && Step(cfg, s, a, s')
    requires TokenAt(s', p).Some? && TokenAt(s', p).value.WritingToken? && TokenAt(s', p).value.k > 0
    ensures var t := TokenAt(s', p).value;
            if a.Run? && a.p == p then TokenAt(s, p) == Some(WritingToken(t.ch, t.k - 1))
            else TokenAt(s, p) == Some(t) && s'.sh.session == s.sh.session
  {
    if a.Run? && a.p == p {
      OwnWriteCameFrom(cfg, s, a.x, s', p);
    } else {
      hide Inv, Step, Indexed;
      SameForOthers(cfg, s, a, s', p);
      WriterHasLock(cfg, s, p);
      OthersKeepSession(cfg, s, a, s', p);
    }
  }

  lemma OwnWriteCameFrom(cfg: Config, s: State, x: Reply, s': State, p: nat)
    requires Indexed(s) && Step(cfg, s, Run(p, x), s')
    requires TokenAt(s', p).Some? && TokenAt(s', p).value.WritingToken? && TokenAt(s', p).value.k > 0
    ensures TokenAt(s, p) == Some(WritingToken(TokenAt(s', p).value.ch, TokenAt(s', p).value.k - 1))
  {
    hide Indexed, DecryptSymmetricKey, WriteToken;
    if InRound(s, p) {
      TokenSource(cfg, s, x, s', p);
      hide Step;
    } else {
      NewRound(cfg, s, x, s', p);
    }
  }

  lemma SameForOthers(cfg: Config, s: State, a: Action, s': State, p: nat)
    requires Indexed(s) && Step(cfg, s, a, s') && !(a.Run? && a.p == p) && TokenAt(s', p).Some?
    ensures TokenAt(s, p) == TokenAt(s', p)
  {
    hide ProcStep, WellIndexed;
  }

  lemma WriteStepIs(cfg: Config, s: State, x: Reply, s': State, p: nat, before: SessionState, at: int)
    requires Indexed(s) && Step(cfg, s, Run(p, x), s') && TokenAt(s, p).Some? && TokenAt(s, p).value.WritingToken?
    requires TokenAt(s', p).Some? && TokenAt(s', p).value.WritingToken? && TokenAt(s', p).value.k > 0
    requires var t := TokenAt(s, p).value;
             s.sh.session == Partly(before, t.ch, t.k, at) && (t.k == 2 ==> at == s.sh.now)
    ensures var t := TokenAt(s, p).value; t.k < 4 && s'.sh.session == Partly(before, t.ch, t.k + 1, at)
  {
    TokenSource(cfg, s, x, s', p);
    hide Step, Indexed, TokenStep, Partly;
    var t := TokenAt(s, p).value;
    WriteMoves(cfg.env, s.sh, p, t.ch, t.k, x, before, at);
  }

  /** The last assignment ends the renewal. */
  lemma LastWrite(cfg: Config, s: State, x: Reply, s': State, p: nat, before: SessionState, at: int)
    requires Indexed(s) && Step(cfg, s, Run(p, x), s') && TokenAt(s, p).Some? && TokenAt(s, p).value.WritingToken?
    requires var t := TokenAt(s, p).value; t.k == 3 && s.sh.session == Partly(before, t.ch, 3, at)
    ensures s'.sh.session == Partly(before, TokenAt(s, p).value.ch, 4, at)
  {
    var t := TokenAt(s, p).value;
    RoundMoves(cfg, s, x, s', p);
    EndsRenewal(cfg, s, x, s', p);
    hide Step, Indexed, TokenStep, Partly;
    WriteMoves(cfg.env, s.sh, p, t.ch, 3, x, before, at);
  }

  /** A step of a renewal changes the session as the renewal does. */
  lemma EndsRenewal(cfg: Config, s: State, x: Reply, s': State, p: nat)
    requires Indexed(s) && Step(cfg, s, Run(p, x), s') && TokenAt(s, p).Some?
    ensures var r := TokenStep(cfg.env, s.sh, p, TokenAt(s, p).value, x); r.Some? && s'.sh.session == r.value.0.session
  {
    hide TokenStep, ReadStep, WellIndexed;
  }

  /**
   What a renewal leaves: when its write ends, the session differs from what it was when the lock was taken by
   exactly the grant that the server gave last, counted from a moment of the write; nothing else of it has changed.
   */
  lemma RenewalStores(cfg: Config, run: seq<State>, acts: seq<Action>, p: nat, i: nat, j: nat)
    returns (b: nat, at: nat, ch: Change, rest: seq<Reply>, h: seq<Reply>)
    requires |run| == |acts| + 1 && j < |acts| && Round(run, p, i, j) && Moves(acts, p, j)
    requires TokenAt(run[j], p).Some? && TokenAt(run[j], p).value.WritingToken? && TokenAt(run[j], p).value.k == 3
    requires IsRun(cfg, run, acts)
    ensures Heard(run, acts, p, i, j) == rest + h && Renewal(cfg.env, h, ch)
    ensures b <= at <= j && run[j + 1].sh.session ==
              run[b].sh.session.(accessToken := ch.accessToken,
                                 refreshToken := if ch.refreshToken.Some? then ch.refreshToken.value
                                                 else run[b].sh.session.refreshToken,
                                 expiresAt := run[at].sh.now + ch.lifetime,
                                 symKey := if ch.symKey.Some? then ch.symKey.value else run[b].sh.session.symKey)
  {
    ch := TokenAt(run[j], p).value.ch;
    b, at := WriteSoFar(cfg, run, acts, p, j);
    StepOf(cfg, run, acts, j);
    LastWrite(cfg, run[j], acts[j].x, run[j + 1], p, run[b].sh.session, run[at].sh.now);
    hide Step, Indexed;
    RoundTraced(cfg, run, acts, p, i, j);
    rest, h := RenewalHeard(cfg, run, acts, p, i, j);
  }

  lemma RenewalHeard(cfg: Config, run: seq<State>, acts: seq<Action>, p: nat, i: nat, j: nat)
    returns (rest: seq<Reply>, h: seq<Reply>)
    requires |run| == |acts| + 1 && Round(run, p, i, j) && Traced(cfg, run, acts, p, i, j)
    requires TokenAt(run[j], p).Some? && TokenAt(run[j], p).value.WritingToken?
    ensures Heard(run, acts, p, i, j) == rest + h && Renewal(cfg.env, h, TokenAt(run[j], p).value.ch)
  {
    hide Renewal, Heard, Compared, Renewed;
    var task, all := TaskOf(run[j].procs[p]).value, Heard(run, acts, p, i, j);
    var due :| Compared(run, acts, p, i, j, due) && TaskProgress(cfg.env, due, task, all);
    if task.Refresh? && task.r.Reauthorizing? {
      var a, b :| Prepared(cfg.env, due, a) && TokenProgress(cfg.env, task.r.t, b) && all == a + REFUSED + b;
      rest, h := a + REFUSED, b;
    } else {
      rest, h := [], all;
      assert all == rest + h;
    }
  }

  // ----- what a request carries -----

  /** The token in the hands of the process: for a sync, or for a renewal. */
  function Carried(task: Task): Option<string> {
    match task
    case Refresh(ReadKey(token)) => Some(token)
    case Refresh(AwaitSync(token, _)) => Some(token)
    case Refresh(AwaitRetry(token, _)) => Some(token)
    case _ =>
      var t := TokenPcOf(task);
      if t.Some? && t.value.AwaitToken? then Some(t.value.refreshToken) else None
  }

  /** The process is about to read that token from the session. */
  predicate ReadsToken(task: Task, access: bool) {
    if access then task.Refresh? && (task.r.ReadToken? || task.r.RereadToken?)
    else TokenPcOf(task) == Some(ReadRefreshToken)
  }

  predicate IsAccess(task: Task) {
    task.Refresh? && (task.r.ReadKey? || task.r.AwaitSync? || task.r.AwaitRetry?)
  }

  lemma CarriedSource(cfg: Config, s: State, x: Reply, s': State, p: nat)
    requires Indexed(s) && Step(cfg, s, Run(p, x), s') && InRound(s', p) && Carried(TaskOf(s'.procs[p]).value).Some?
    ensures InRound(s, p)
    ensures var task, task' := TaskOf(s.procs[p]).value, TaskOf(s'.procs[p]).value;
            || (Carried(task) == Carried(task') && IsAccess(task) == IsAccess(task'))
            || (ReadsToken(task, IsAccess(task')) &&
                Carried(task') == Some(if IsAccess(task') then s.sh.session.accessToken else s.sh.session.refreshToken))
  {
    if InRound(s, p) {
      RoundMoves(cfg, s, x, s', p);
      hide Step, Indexed, RefreshStep, EnsureStep;
      match TaskOf(s.procs[p]).value
      case Refresh(r) => RefreshCarries(cfg.env, s.sh, p, s.procs[p].Caller?, r, x);
      case Ensure(e) => EnsureCarries(cfg.env, s.sh, p, e, x);
    } else {
      NewRoundCarries(cfg, s, x, s', p);
    }
  }

  lemma NewRoundCarries(cfg: Config, s: State, x: Reply, s': State, p: nat)
    requires Indexed(s) && Step(cfg, s, Run(p, x), s') && !InRound(s, p) && InRound(s', p)
    ensures Carried(TaskOf(s'.procs[p]).value).None?
  {
    hide LookupItem, IsSecret, RefreshStep, EnsureStep, WellIndexed;
  }

  lemma TokenCarries(env: Env, sh: Shared, p: nat, t: TokenPc, x: Reply)
    ensures var res := TokenStep(env, sh, p, t, x);
            res.Some? && res.value.1.More? && res.value.1.pc.AwaitToken? ==>
              t == ReadRefreshToken && res.value.1.pc.refreshToken == sh.session.refreshToken
  {
    hide DecryptSymmetricKey, WriteToken;
  }

  lemma EnsureCarries(env: Env, sh: Shared, p: nat, e: EnsurePc, x: Reply)
    ensures var res := EnsureStep(env, sh, p, e, x);
            res.Some? && res.value.1.More? && res.value.1.pc.Renewing? && res.value.1.pc.t.AwaitToken? ==>
              e == Renewing(ReadRefreshToken) && res.value.1.pc.t.refreshToken == sh.session.refreshToken
  {
    if e.Renewing? {
      TokenCarries(env, sh, p, e.t, x);
    }
    hide TokenStep;
  }

  lemma RefreshCarries(env: Env, sh: Shared, p: nat, onDemand: bool, r: RefreshPc, x: Reply)
    ensures var res := RefreshStep(env, sh, p, onDemand, r, x);
            res.Some? && res.value.1.More? && Carried(Refresh(res.value.1.pc)).Some? ==>
              var task, task' := Refresh(r), Refresh(res.value.1.pc);
              || (Carried(task) == Carried(task') && IsAccess(task) == IsAccess(task'))
              || (ReadsToken(task, IsAccess(task')) &&
                  Carried(task') == Some(if IsAccess(task') then sh.session.accessToken else sh.session.refreshToken))
  {
    if r.Ensuring? {
      EnsureCarries(env, sh, p, r.e, x);
    } else if r.Reauthorizing? {
      TokenCarries(env, sh, p, r.t, x);
    }
    hide TokenStep, EnsureStep, IsVaultOf;
  }

  /**
   The sync carries the access token, and the renewal the refresh token, that the session had when the round
   read it.
   */
  lemma {:induction false} CarriedWasRead(cfg: Config, run: seq<State>, acts: seq<Action>, p: nat, j: nat)
    returns (k: nat)
    requires j < |run| && InRound(run[j], p) && Carried(TaskOf(run[j].procs[p]).value).Some? && IsRun(cfg, run, acts)
    ensures k < j && InRound(run[k], p) && Moves(acts, p, k)
    ensures var task, session := TaskOf(run[j].procs[p]).value, run[k].sh.session;
            && ReadsToken(TaskOf(run[k].procs[p]).value, IsAccess(task))
            && Carried(task) == Some(if IsAccess(task) then session.accessToken else session.refreshToken)
            && forall m :: k < m <= j ==> InRound(run[m], p) && Carried(TaskOf(run[m].procs[p]).value) == Carried(task)
    decreases j
  {
    hide Step, Indexed, Carried, ReadsToken, IsAccess;
    assert |run| == |acts| + 1;
    if j == 0 {
      NothingCarriedAtFirst(cfg, run, acts, p);
    } else {
      StepOf(cfg, run, acts, j - 1);
      if Moves(acts, p, j - 1) {
        CarriedSource(cfg, run[j - 1], acts[j - 1].x, run[j], p);
        var task, task' := TaskOf(run[j - 1].procs[p]).value, TaskOf(run[j].procs[p]).value;
        if Carried(task) == Carried(task') && IsAccess(task) == IsAccess(task') {
          k := CarriedWasRead(cfg, run, acts, p, j - 1);
        } else {
          k := j - 1;
        }
      } else {
        RoundOfOthers(cfg, run[j - 1], acts[j - 1], run[j], p);
        k := CarriedWasRead(cfg, run, acts, p, j - 1);
      }
    }
  }

  lemma NothingCarriedAtFirst(cfg: Config, run: seq<State>, acts: seq<Action>, p: nat)
    requires IsRun(cfg, run, acts)
    ensures InRound(run[0], p) ==> Carried(TaskOf(run[0].procs[p]).value).None?
  {
    assert LegalAt(cfg, run, acts, 0);
  }

  lemma RoundOfOthers(cfg: Config, s: State, a: Action, s': State, p: nat)
    requires Indexed(s) && Step(cfg, s, a, s') && !(a.Run? && a.p == p) && InRound(s', p)
    ensures InRound(s, p) && s'.procs[p] == s.procs[p]
  {
    hide ProcStep, WellIndexed;
  }
}
