/**
 How every round of the vault client ends, from the replies it got (src/vault/mod.rs:210-245, 313-362): when a
 refresh commits and what, when it fails, and what a renewal of the tokens stores.
 */
module Outcomes {
  import opened Results
  import opened Crypto
  import opened Vault
  import opened Lookup
  import opened Sessions
  import opened Protocol
  import opened Invariants
  import opened Runs
  import opened Guarantees

  // ----- what is heard -----

  /** A round of a process: a refresh of the cache, or of the token alone. */
  datatype Task = Refresh(r: RefreshPc) | Ensure(e: EnsurePc)

  function TaskOf(me: Proc): Option<Task> {
    match me
    case TokenKeeper(Some(e)) => Some(Ensure(e))
    case TokenKeeper(None) => None
    case _ => if RefreshOf(me).Some? then Some(Refresh(RefreshOf(me).value)) else None
  }

  function TokenPcOf(task: Task): Option<TokenPc> {
    match task
    case Ensure(Renewing(t)) => Some(t)
    case Refresh(Ensuring(Renewing(t))) => Some(t)
    case Refresh(Reauthorizing(_, t)) => Some(t)
    case _ => None
  }

  /** The process waits for a reply of the server. */
  predicate Listens(task: Task) {
    || (TokenPcOf(task).Some? && (TokenPcOf(task).value.AwaitToken? || TokenPcOf(task).value.AwaitLogin?))
    || (task.Refresh? && (task.r.AwaitSync? || task.r.AwaitRetry?))
  }

  predicate InRound(s: State, p: nat) {
    p in s.procs && TaskOf(s.procs[p]).Some?
  }

  /** What `p` hears in action `a` from state `s`. */
  function HeardIn(s: State, a: Action, p: nat): seq<Reply> {
    if a.Run? && a.p == p && InRound(s, p) && Listens(TaskOf(s.procs[p]).value) then [a.x] else []
  }

  /** The replies that `p` hears from state `i` to state `j`. */
  function Heard(run: seq<State>, acts: seq<Action>, p: nat, i: nat, j: nat): seq<Reply>
    requires |run| == |acts| + 1 && i <= j < |run|
    decreases j
  {
    if i == j then [] else Heard(run, acts, p, i, j - 1) + HeardIn(run[j - 1], acts[j - 1], p)
  }

  // ----- the grammar of a round -----

  /**
   A renewal that succeeds, and what it has to store: a token grant, or after its refusal a login whose key
   unwraps.
   */
  ghost predicate Renewal(env: Env, h: seq<Reply>, ch: Change) {
    || (exists g :: h == [TokenReply(Some(g))] && ch == Change(g.accessToken, g.refreshToken, g.lifetime, None))
    || (exists l, key ::
          && h == [TokenReply(None), LoginReply(Some(l))]
          && DecryptSymmetricKey(env.prims, l.wrappedKey, l.master) == Ok(key)
          && ch == Change(l.accessToken, Some(l.refreshToken), l.lifetime, Some(key)))
  }

  ghost predicate Renewed(env: Env, h: seq<Reply>) {
    exists ch :: Renewal(env, h, ch)
  }

  /** A renewal that fails: the grant is refused, and so is the login, or its key does not unwrap. */
  ghost predicate NotRenewed(env: Env, h: seq<Reply>) {
    || h == [TokenReply(None), LoginReply(None)]
    || exists l ::
         h == [TokenReply(None), LoginReply(Some(l))] && DecryptSymmetricKey(env.prims, l.wrappedKey, l.master).Err?
  }

  /** What comes before the first sync: a renewal if one is due, nothing otherwise. */
  ghost predicate Prepared(env: Env, due: bool, h: seq<Reply>) {
    if due then Renewed(env, h) else h == []
  }

  const REFUSED := [SyncReplied(Unauthorized)]

  /** After `a`, the sync was refused and the tokens were renewed. */
  ghost predicate RenewedAgain(env: Env, due: bool, h: seq<Reply>) {
    exists a, b :: Prepared(env, due, a) && Renewed(env, b) && h == a + REFUSED + b
  }

  /** A refresh that commits `resp`: it came at once, or after one refusal and a renewal. */
  ghost predicate Succeeds(env: Env, due: bool, h: seq<Reply>, resp: SyncResponse) {
    exists a :: h == a + [SyncReplied(SyncOk(resp))] && (Prepared(env, due, a) || RenewedAgain(env, due, a))
  }

  /** The first sync is refused and the renewal after it fails. */
  ghost predicate RefusedTwice(env: Env, due: bool, h: seq<Reply>) {
    exists a, b :: Prepared(env, due, a) && NotRenewed(env, b) && h == a + REFUSED + b
  }

  ghost predicate SyncFails(env: Env, due: bool, h: seq<Reply>) {
    exists a :: h == a + [SyncReplied(SyncError)] && Prepared(env, due, a)
  }

  ghost predicate RetryFails(env: Env, due: bool, h: seq<Reply>) {
    exists a, x :: h == a + [SyncReplied(x)] && !x.SyncOk? && RenewedAgain(env, due, a)
  }

  /**
   A refresh that fails: in the renewal that was due, in the sync, in the renewal after a refusal, or in the
   retry.
   */
  ghost predicate Fails(env: Env, due: bool, h: seq<Reply>) {
    (due && NotRenewed(env, h)) || SyncFails(env, due, h) || RefusedTwice(env, due, h) || RetryFails(env, due, h)
  }

  // ----- how far a round has come -----

  ghost predicate TokenProgress(env: Env, t: TokenPc, h: seq<Reply>) {
    match t
    case ReadRefreshToken => h == []
    case AwaitToken(_) => h == []
    case AwaitLogin => h == [TokenReply(None)]
    case WantTokenWrite(ch) => Renewal(env, h, ch)
    case WritingToken(ch, _) => Renewal(env, h, ch)
  }

  ghost predicate Reauthorized(env: Env, due: bool, t: TokenPc, h: seq<Reply>) {
    exists a, b :: Prepared(env, due, a) && TokenProgress(env, t, b) && h == a + REFUSED + b
  }

  ghost predicate RefreshProgress(env: Env, due: bool, r: RefreshPc, h: seq<Reply>) {
    match r
    case Ensuring(e) => e.Renewing? && due && TokenProgress(env, e.t, h)
    case ReadToken => Prepared(env, due, h)
    case ReadKey(_) => Prepared(env, due, h)
    case AwaitSync(_, _) => Prepared(env, due, h)
    case Reauthorizing(_, t) => Reauthorized(env, due, t, h)
    case RereadToken(_) => RenewedAgain(env, due, h)
    case AwaitRetry(_, _) => RenewedAgain(env, due, h)
    case Decrypting(resp, _) => Succeeds(env, due, h, resp)
    case WantCommit(resp, _, _) => Succeeds(env, due, h, resp)
    case Committing(resp, _, _, _) => Succeeds(env, due, h, resp)
  }

  ghost predicate TaskProgress(env: Env, due: bool, task: Task, h: seq<Reply>) {
    match task
    case Refresh(r) => RefreshProgress(env, due, r, h)
    case Ensure(e) => e.Renewing? && due && TokenProgress(env, e.t, h)
  }

  function HeardBy(task: Task, x: Reply): seq<Reply> {
    if Listens(task) then [x] else []
  }

  function TokenHeard(t: TokenPc, x: Reply): seq<Reply> {
    if t.AwaitToken? || t.AwaitLogin? then [x] else []
  }

  /** A step of a renewal keeps the account of what was heard; at its end the renewal has succeeded or failed. */
  lemma TokenMoves(env: Env, sh: Shared, p: nat, t: TokenPc, x: Reply, h: seq<Reply>)
    requires TokenProgress(env, t, h) && TokenStep(env, sh, p, t, x).Some?
    ensures var r, h' := TokenStep(env, sh, p, t, x).value.1, h + TokenHeard(t, x);
            match r
            case More(t') => TokenProgress(env, t', h')
            case Finished(ok) => if ok then Renewed(env, h') else NotRenewed(env, h')
  {
    hide DecryptSymmetricKey, WriteToken;
    assert h + [] == h;
  }

  lemma RefreshMoves(env: Env, sh: Shared, p: nat, onDemand: bool, r: RefreshPc, x: Reply, due: bool, h: seq<Reply>)
    requires RefreshProgress(env, due, r, h) && RefreshStep(env, sh, p, onDemand, r, x).Some?
    ensures var res, h' := RefreshStep(env, sh, p, onDemand, r, x).value.1, h + HeardBy(Refresh(r), x);
            match res
            case More(r') => RefreshProgress(env, due, r', h')
            case Finished(ok) =>
              if ok then r.Committing? && h' == h && Succeeds(env, due, h', r.resp) else Fails(env, due, h')
  {
    hide TokenStep, TokenProgress, IsVaultOf, Renewed, NotRenewed, Renewal;
    assert h + [] == h;
    match r
    case Ensuring(Renewing(t)) => TokenMoves(env, sh, p, t, x, h);
    case AwaitSync(_, _) =>
      assert h + [x] == h + REFUSED + [] || x != SyncReplied(Unauthorized);
      if x == SyncReplied(Unauthorized) {
        assert TokenProgress(env, ReadRefreshToken, []) by { EmptyProgress(env); }
      }
    case Reauthorizing(_, t) =>
      var a, b :| Prepared(env, due, a) && TokenProgress(env, t, b) && h == a + REFUSED + b;
      TokenMoves(env, sh, p, t, x, b);
      assert h + TokenHeard(t, x) == a + REFUSED + (b + TokenHeard(t, x));
    case _ =>
  }

  lemma EmptyProgress(env: Env)
    ensures TokenProgress(env, ReadRefreshToken, [])
  {
  }

  lemma NotRenewedLast(env: Env, h: seq<Reply>)
    requires NotRenewed(env, h)
    ensures |h| == 2 && h[1].LoginReply?
  {
  }

  lemma FailsLast(env: Env, due: bool, h: seq<Reply>)
    requires Fails(env, due, h)
    ensures h != [] && !(h[|h| - 1].SyncReplied? && h[|h| - 1].sync.SyncOk?)
  {
    hide Prepared, RenewedAgain, NotRenewed;
    if due && NotRenewed(env, h) {
      NotRenewedLast(env, h);
    } else if RefusedTwice(env, due, h) {
      var a, b :| Prepared(env, due, a) && NotRenewed(env, b) && h == a + REFUSED + b;
      NotRenewedLast(env, b);
      assert h[|h| - 1] == b[1];
    }
  }

  /** A success is told from a failure, and one response from another, by the last reply. */
  lemma OutcomeIsClear(env: Env, due: bool, h: seq<Reply>, resp: SyncResponse)
    requires Succeeds(env, due, h, resp)
    ensures !Fails(env, due, h)
    ensures h != [] && h[|h| - 1] == SyncReplied(SyncOk(resp))
  {
    hide Fails, Prepared, RenewedAgain;
    var a :| h == a + [SyncReplied(SyncOk(resp))];
    if Fails(env, due, h) {
      FailsLast(env, due, h);
    }
  }

  // ----- a round in a run -----

  predicate Moves(acts: seq<Action>, p: nat, k: nat)
    requires k < |acts|
  {
    acts[k].Run? && acts[k].p == p
  }

  function EnsurePcOf(task: Task): Option<EnsurePc> {
    match task
    case Ensure(e) => Some(e)
    case Refresh(Ensuring(e)) => Some(e)
    case _ => None
  }

  /** In state `k` the round of `p` stands at `e`. */
  predicate StandsAt(run: seq<State>, p: nat, k: nat, e: EnsurePc)
    requires k < |run|
  {
    InRound(run[k], p) && EnsurePcOf(TaskOf(run[k].procs[p]).value) == Some(e)
  }

  /**
   Between states `i` and `j` the round read the expiry, at `k`, and compared it with the clock, at `m`; a
   renewal was due.
   */
  predicate ComparedAt(run: seq<State>, acts: seq<Action>, p: nat, i: nat, j: nat, k: nat, m: nat, due: bool)
    requires |run| == |acts| + 1
  {
    && i <= k < m < j < |run|
    && Moves(acts, p, k) && StandsAt(run, p, k, ReadExpiry)
    && Moves(acts, p, m) && StandsAt(run, p, m, CompareExpiry(run[k].sh.session.expiresAt))
    && due == (run[m].sh.now + 60_000_000_000 >= run[k].sh.session.expiresAt)
  }

  /** The round found its token within a minute of the expiry it had read, or not. */
  ghost predicate Compared(run: seq<State>, acts: seq<Action>, p: nat, i: nat, j: nat, due: bool)
    requires |run| == |acts| + 1
  {
    exists k: nat, m: nat :: ComparedAt(run, acts, p, i, j, k, m, due)
  }

  /** A round of `p` that begins at state `i` and is still on at state `j`. */
  predicate Round(run: seq<State>, p: nat, i: nat, j: nat) {
    && i <= j < |run|
    && StandsAt(run, p, i, ReadExpiry)
    && forall m :: i <= m <= j ==> InRound(run[m], p)
  }

  /** The expiry that the round is about to compare was read in it. */
  ghost predicate ExpiryWasRead(run: seq<State>, acts: seq<Action>, p: nat, i: nat, j: nat, e: int)
    requires |run| == |acts| + 1
  {
    exists k: nat ::
      && i <= k < j < |run| && Moves(acts, p, k) && StandsAt(run, p, k, ReadExpiry)
      && e == run[k].sh.session.expiresAt
  }

  /** It is not yet known whether a renewal is due. */
  predicate IsEarly(task: Task) {
    EnsurePcOf(task).Some? && !EnsurePcOf(task).value.Renewing?
  }

  predicate EarlyAt(run: seq<State>, p: nat, j: nat)
    requires j < |run|
  {
    InRound(run[j], p) && IsEarly(TaskOf(run[j].procs[p]).value)
  }

  ghost predicate EarlyTrace(run: seq<State>, acts: seq<Action>, p: nat, i: nat, j: nat, e: EnsurePc)
    requires |run| == |acts| + 1
  {
    e.CompareExpiry? ==> ExpiryWasRead(run, acts, p, i, j, e.expiresAt)
  }

  ghost predicate LateTrace(env: Env, run: seq<State>, acts: seq<Action>, p: nat, i: nat, j: nat, task: Task,
                            h: seq<Reply>)
    requires |run| == |acts| + 1
  {
    exists due :: Compared(run, acts, p, i, j, due) && TaskProgress(env, due, task, h)
  }

  ghost predicate Traced(cfg: Config, run: seq<State>, acts: seq<Action>, p: nat, i: nat, j: nat)
    requires |run| == |acts| + 1 && Round(run, p, i, j)
  {
    var task, h := TaskOf(run[j].procs[p]).value, Heard(run, acts, p, i, j);
    if IsEarly(task) then h == [] && EarlyTrace(run, acts, p, i, j, EnsurePcOf(task).value)
    else LateTrace(cfg.env, run, acts, p, i, j, task, h)
  }

  lemma ComparedLater(run: seq<State>, acts: seq<Action>, p: nat, i: nat, j: nat, due: bool)
    requires |run| == |acts| + 1 && Compared(run, acts, p, i, j, due) && j + 1 < |run|
    ensures Compared(run, acts, p, i, j + 1, due)
  {
    var k: nat, m: nat :| ComparedAt(run, acts, p, i, j, k, m, due);
    assert ComparedAt(run, acts, p, i, j + 1, k, m, due);
  }

  /** A step of somebody else leaves the round as it is. */
  lemma NotMoved(cfg: Config, s: State, a: Action, s': State, p: nat)
    requires Indexed(s) && Step(cfg, s, a, s') && p in s.procs && !(a.Run? && a.p == p)
    ensures p in s'.procs && s'.procs[p] == s.procs[p] && HeardIn(s, a, p) == []
  {
    hide ProcStep, WellIndexed;
  }

  /** A step of the round itself, in terms of its task. */
  lemma RoundMoves(cfg: Config, s: State, x: Reply, s': State, p: nat)
    requires Indexed(s) && Step(cfg, s, Run(p, x), s') && InRound(s, p)
    ensures p in s'.procs && HeardIn(s, Run(p, x), p) == HeardBy(TaskOf(s.procs[p]).value, x)
    ensures var me := s.procs[p];
            match TaskOf(me).value
            case Refresh(r) =>
              var res := RefreshStep(cfg.env, s.sh, p, me.Caller?, r, x);
              && res.Some?
              && (res.value.1.More? ==> TaskOf(s'.procs[p]) == Some(Refresh(res.value.1.pc)) && s'.sh == res.value.0)
              && (res.value.1.Finished? ==> TaskOf(s'.procs[p]).None? && s'.sh.log == res.value.0.log)
            case Ensure(e) =>
              var res := EnsureStep(cfg.env, s.sh, p, e, x);
              && res.Some?
              && (res.value.1.More? ==> TaskOf(s'.procs[p]) == Some(Ensure(res.value.1.pc)) && s'.sh == res.value.0)
              && (res.value.1.Finished? ==> TaskOf(s'.procs[p]).None?)
  {
    hide RefreshStep, EnsureStep, ReadStep, WellIndexed;
  }

  /** What the two steps do before it is known whether a renewal is due: where the round stands after them. */
  function AfterEarly(sh: Shared, task: Task): Option<Task>
    requires IsEarly(task)
  {
    var e := EnsurePcOf(task).value;
    var due := e.CompareExpiry? && sh.now + 60_000_000_000 >= e.expiresAt;
    var next := if e.ReadExpiry? then CompareExpiry(sh.session.expiresAt) else Renewing(ReadRefreshToken);
    if e.ReadExpiry? || due then Some(if task.Ensure? then Ensure(next) else Refresh(Ensuring(next)))
    else if task.Ensure? then None
    else Some(Refresh(ReadToken))
  }

  lemma EarlyMoves(cfg: Config, s: State, x: Reply, s': State, p: nat)
    requires Indexed(s) && Step(cfg, s, Run(p, x), s') && InRound(s, p) && IsEarly(TaskOf(s.procs[p]).value)
    ensures p in s'.procs && TaskOf(s'.procs[p]) == AfterEarly(s.sh, TaskOf(s.procs[p]).value)
    ensures HeardIn(s, Run(p, x), p) == []
  {
    RoundMoves(cfg, s, x, s', p);
    hide Step, Indexed, TokenStep;
  }

  /** How a round ends: for a refresh with its commit or without one. */
  ghost predicate Ended(cfg: Config, run: seq<State>, acts: seq<Action>, p: nat, i: nat, j: nat)
    requires |run| == |acts| + 1 && i <= j < |acts| && InRound(run[j], p)
  {
    var task, h := TaskOf(run[j].procs[p]).value, Heard(run, acts, p, i, j + 1);
    exists due :: Compared(run, acts, p, i, j + 1, due) && EndsAs(cfg.env, task, due, h)
  }

  ghost predicate EndsAs(env: Env, task: Task, due: bool, h: seq<Reply>) {
    if task.Ensure? then (if due then Renewed(env, h) || NotRenewed(env, h) else h == [])
    else if task.r.Committing? then Succeeds(env, due, h, task.r.resp)
    else Fails(env, due, h)
  }

  /** After action `j` the round is accounted for: it goes on, or has ended. */
  ghost predicate Follows(cfg: Config, run: seq<State>, acts: seq<Action>, p: nat, i: nat, j: nat)
    requires |run| == |acts| + 1 && Round(run, p, i, j) && j < |acts|
  {
    if InRound(run[j + 1], p) then Traced(cfg, run, acts, p, i, j + 1) else Ended(cfg, run, acts, p, i, j)
  }

  /** One step of the round from where it is not yet known whether a renewal is due. */
  lemma TracedEarly(cfg: Config, run: seq<State>, acts: seq<Action>, p: nat, i: nat, j: nat)
    requires |run| == |acts| + 1 && Round(run, p, i, j) && j < |acts| && Moves(acts, p, j) && EarlyAt(run, p, j)
    requires Traced(cfg, run, acts, p, i, j) && IsRun(cfg, run, acts)
    ensures Follows(cfg, run, acts, p, i, j)
  {
    StepOf(cfg, run, acts, j);
    var task := TaskOf(run[j].procs[p]).value;
    var e := EnsurePcOf(task).value;
    EarlyMoves(cfg, run[j], acts[j].x, run[j + 1], p);
    assert Heard(run, acts, p, i, j + 1) == [];
    assert StandsAt(run, p, j, e);
    hide IsRun, Step, Indexed, Renewed, NotRenewed, Compared, Heard, HeardIn;
    if e.ReadExpiry? {
      assert ExpiryWasRead(run, acts, p, i, j + 1, run[j].sh.session.expiresAt);
      hide ExpiryWasRead;
    } else {
      var k: nat :| i <= k < j < |run| && Moves(acts, p, k) && StandsAt(run, p, k, ReadExpiry)
                    && e.expiresAt == run[k].sh.session.expiresAt;
      hide ExpiryWasRead, StandsAt;
      var due := run[j].sh.now + 60_000_000_000 >= e.expiresAt;
      ComparedNow(run, acts, p, i, j, k, due);
      EmptyProgress(cfg.env);
      hide TokenProgress;
      if InRound(run[j + 1], p) {
        assert TaskProgress(cfg.env, due, TaskOf(run[j + 1].procs[p]).value, []);
      } else {
        assert EndsAs(cfg.env, task, due, []);
      }
    }
  }

  lemma ComparedNow(run: seq<State>, acts: seq<Action>, p: nat, i: nat, j: nat, k: nat, due: bool)
    requires |run| == |acts| + 1 && i <= k < j < |acts| && Moves(acts, p, k) && StandsAt(run, p, k, ReadExpiry)
    requires Moves(acts, p, j) && StandsAt(run, p, j, CompareExpiry(run[k].sh.session.expiresAt))
    requires due == (run[j].sh.now + 60_000_000_000 >= run[k].sh.session.expiresAt)
    ensures Compared(run, acts, p, i, j + 1, due)
  {
    assert ComparedAt(run, acts, p, i, j + 1, k, j, due);
  }

  /** A step of a round keeps the account of what was heard, up to how it ends. */
  lemma TaskMoves(cfg: Config, s: State, x: Reply, s': State, p: nat, due: bool, h: seq<Reply>)
    requires Indexed(s) && Step(cfg, s, Run(p, x), s') && InRound(s, p)
    requires var task := TaskOf(s.procs[p]).value; !IsEarly(task) && TaskProgress(cfg.env, due, task, h)
    ensures p in s'.procs
    ensures var h' := h + HeardIn(s, Run(p, x), p);
            match TaskOf(s'.procs[p])
            case Some(task') => !IsEarly(task') && TaskProgress(cfg.env, due, task', h')
            case None => EndsAs(cfg.env, TaskOf(s.procs[p]).value, due, h')
  {
    var me := s.procs[p];
    RoundMoves(cfg, s, x, s', p);
    hide Step, Indexed, Renewed, NotRenewed, RefreshStep, Succeeds, Fails, TokenStep, TokenProgress, EnsureStep;
    match TaskOf(me).value
    case Refresh(r) =>
      RefreshMoves(cfg.env, s.sh, p, me.Caller?, r, x, due, h);
    case Ensure(e) =>
      TokenMoves(cfg.env, s.sh, p, e.t, x, h);
      EnsureIsToken(cfg.env, s.sh, p, e.t, x);
  }

  lemma EnsureIsToken(env: Env, sh: Shared, p: nat, t: TokenPc, x: Reply)
    ensures var a, b := EnsureStep(env, sh, p, Renewing(t), x), TokenStep(env, sh, p, t, x);
            && (a.Some? <==> b.Some?)
            && (a.Some? ==>
                  a.value.1 == if b.value.1.More? then More(Renewing(b.value.1.pc)) else Finished(b.value.1.ok))
  {
    hide TokenStep;
  }

  /** One step of the round after that. */
  lemma TracedLate(cfg: Config, run: seq<State>, acts: seq<Action>, p: nat, i: nat, j: nat)
    requires |run| == |acts| + 1 && Round(run, p, i, j) && j < |acts| && Moves(acts, p, j) && !EarlyAt(run, p, j)
    requires Traced(cfg, run, acts, p, i, j) && IsRun(cfg, run, acts)
    ensures Follows(cfg, run, acts, p, i, j)
  {
    StepOf(cfg, run, acts, j);
    var task, h := TaskOf(run[j].procs[p]).value, Heard(run, acts, p, i, j);
    assert Heard(run, acts, p, i, j + 1) == h + HeardIn(run[j], acts[j], p);
    hide IsRun, Step, Indexed, TaskProgress, EndsAs, Compared, Heard, HeardIn, IsEarly, EarlyTrace;
    var due :| Compared(run, acts, p, i, j, due) && TaskProgress(cfg.env, due, task, h);
    ComparedLater(run, acts, p, i, j, due);
    TaskMoves(cfg, run[j], acts[j].x, run[j + 1], p, due, h);
  }

  lemma TracedStill(cfg: Config, run: seq<State>, acts: seq<Action>, p: nat, i: nat, j: nat)
    requires |run| == |acts| + 1 && Round(run, p, i, j) && j < |acts| && !Moves(acts, p, j)
    requires Traced(cfg, run, acts, p, i, j) && IsRun(cfg, run, acts)
    ensures InRound(run[j + 1], p) && Follows(cfg, run, acts, p, i, j)
  {
    StepOf(cfg, run, acts, j);
    NotMoved(cfg, run[j], acts[j], run[j + 1], p);
    var task, h := TaskOf(run[j].procs[p]).value, Heard(run, acts, p, i, j);
    assert Heard(run, acts, p, i, j + 1) == h;
    hide IsRun, Step, Indexed, TaskProgress, Compared, Heard, HeardIn, IsEarly, EarlyTrace;
    if IsEarly(task) {
      EarlyLater(run, acts, p, i, j, EnsurePcOf(task).value);
    } else {
      var due :| Compared(run, acts, p, i, j, due) && TaskProgress(cfg.env, due, task, h);
      ComparedLater(run, acts, p, i, j, due);
    }
  }

  lemma EarlyLater(run: seq<State>, acts: seq<Action>, p: nat, i: nat, j: nat, e: EnsurePc)
    requires |run| == |acts| + 1 && EarlyTrace(run, acts, p, i, j, e) && j < |acts|
    ensures EarlyTrace(run, acts, p, i, j + 1, e)
  {
    hide StandsAt;
  }

  lemma {:induction false} RoundTraced(cfg: Config, run: seq<State>, acts: seq<Action>, p: nat, i: nat, j: nat)
    requires IsRun(cfg, run, acts) && Round(run, p, i, j)
    ensures Traced(cfg, run, acts, p, i, j)
    decreases j
  {
    hide Traced, Step, Indexed;
    if i == j {
      TracedFirst(cfg, run, acts, p, i);
    } else {
      RoundTraced(cfg, run, acts, p, i, j - 1);
      if !Moves(acts, p, j - 1) {
        TracedStill(cfg, run, acts, p, i, j - 1);
      } else {
        if EarlyAt(run, p, j - 1) {
          TracedEarly(cfg, run, acts, p, i, j - 1);
        } else {
          TracedLate(cfg, run, acts, p, i, j - 1);
        }
      }
    }
  }

  lemma TracedFirst(cfg: Config, run: seq<State>, acts: seq<Action>, p: nat, i: nat)
    requires IsRun(cfg, run, acts) && Round(run, p, i, i)
    ensures Traced(cfg, run, acts, p, i, i)
  {
  }

  /** The round of `p` that began at `i` ends in action `j`. */
  predicate Ends(run: seq<State>, acts: seq<Action>, p: nat, i: nat, j: nat)
    requires |run| == |acts| + 1
  {
    Round(run, p, i, j) && j < |acts| && !InRound(run[j + 1], p)
  }

  lemma RoundEnds(cfg: Config, run: seq<State>, acts: seq<Action>, p: nat, i: nat, j: nat)
    requires IsRun(cfg, run, acts) && Ends(run, acts, p, i, j)
    ensures Moves(acts, p, j) && Ended(cfg, run, acts, p, i, j)
  {
    hide Traced, Ended, Step, Indexed;
    RoundTraced(cfg, run, acts, p, i, j);
    if !Moves(acts, p, j) {
      TracedStill(cfg, run, acts, p, i, j);
    } else {
      if EarlyAt(run, p, j) {
        TracedEarly(cfg, run, acts, p, i, j);
      } else {
        TracedLate(cfg, run, acts, p, i, j);
      }
    }
  }

  // ----- the outcome of a refresh -----

  /** Action `j` appends a commit of `resp` by `p` to the log. */
  predicate CommitsAt(run: seq<State>, p: nat, j: nat, resp: SyncResponse)
    requires j + 1 < |run|
  {
    var n := |run[j].sh.log|;
    && |run[j + 1].sh.log| == n + 1 && run[j + 1].sh.log[n].Committed?
    && run[j + 1].sh.log[n].pid == p && run[j + 1].sh.log[n].resp == resp
  }

  lemma CommittingEnds(cfg: Config, run: seq<State>, acts: seq<Action>, p: nat, i: nat, j: nat)
    requires IsRun(cfg, run, acts) && Ends(run, acts, p, i, j) && Moves(acts, p, j)
            && TaskOf(run[j].procs[p]).value.Refresh?
    ensures var r := TaskOf(run[j].procs[p]).value.r;
            if r.Committing? then CommitsAt(run, p, j, r.resp) else run[j + 1].sh.log == run[j].sh.log
  {
    StepOf(cfg, run, acts, j);
    RoundMoves(cfg, run[j], acts[j].x, run[j + 1], p);
    var r := TaskOf(run[j].procs[p]).value.r;
    RefreshEndsLog(cfg.env, run[j].sh, p, run[j].procs[p].Caller?, r, acts[j].x);
    hide IsRun, Step, Indexed, RefreshStep;
  }

  lemma RefreshEndsLog(env: Env, sh: Shared, p: nat, onDemand: bool, r: RefreshPc, x: Reply)
    ensures var res := RefreshStep(env, sh, p, onDemand, r, x);
            res.Some? && res.value.1.Finished? ==>
              if r.Committing? then
                && |res.value.0.log| == |sh.log| + 1 && res.value.0.log[..|sh.log|] == sh.log
                && res.value.0.log[|sh.log|].Committed? && res.value.0.log[|sh.log|].pid == p
                && res.value.0.log[|sh.log|].resp == r.resp
              else res.value.0.log == sh.log
  {
    hide IsVaultOf, DecryptSymmetricKey, WriteToken;
    if r.Ensuring? {
      EnsureStepLog(env, sh, p, r.e, x);
    } else if r.Reauthorizing? {
      TokenStepLog(env, sh, p, r.t, x);
    }
  }

  lemma TokenStepLog(env: Env, sh: Shared, p: nat, t: TokenPc, x: Reply)
    ensures TokenStep(env, sh, p, t, x).Some? ==> TokenStep(env, sh, p, t, x).value.0.log == sh.log
  {
    hide DecryptSymmetricKey, WriteToken;
  }

  /**
   How a refresh ends, exactly, from what it heard: it commits a response if and only if that came in answer to its
   sync, or to a second one after a refusal and a renewal; and ends without a commit if and only if the renewal that
   was due failed, or the sync, or the renewal after a refusal, or the second sync.
   */
  lemma RefreshExactly(cfg: Config, run: seq<State>, acts: seq<Action>, p: nat, i: nat, j: nat) returns (due: bool)
    requires IsRun(cfg, run, acts) && Ends(run, acts, p, i, j) && RefreshOf(run[j].procs[p]).Some?
    ensures Compared(run, acts, p, i, j + 1, due)
    ensures forall resp :: CommitsAt(run, p, j, resp) <==> Succeeds(cfg.env, due, Heard(run, acts, p, i, j + 1), resp)
    ensures run[j + 1].sh.log == run[j].sh.log <==> Fails(cfg.env, due, Heard(run, acts, p, i, j + 1))
  {
    assert |run| == |acts| + 1;
    hide IsRun, Succeeds, Fails, Compared, Heard;
    RoundEnds(cfg, run, acts, p, i, j);
    CommittingEnds(cfg, run, acts, p, i, j);
    var h := Heard(run, acts, p, i, j + 1);
    due :| Compared(run, acts, p, i, j + 1, due) && EndsAs(cfg.env, TaskOf(run[j].procs[p]).value, due, h);
    forall resp | Succeeds(cfg.env, due, h, resp)
      ensures !Fails(cfg.env, due, h) && h != [] && h[|h| - 1] == SyncReplied(SyncOk(resp))
    {
      OutcomeIsClear(cfg.env, due, h, resp);
    }
  }

  /** A round of the token keeper asks for a renewal exactly if one is due. */
  lemma KeeperExactly(cfg: Config, run: seq<State>, acts: seq<Action>, p: nat, i: nat, j: nat) returns (due: bool)
    requires IsRun(cfg, run, acts) && Ends(run, acts, p, i, j) && run[j].procs[p].TokenKeeper?
    ensures Compared(run, acts, p, i, j + 1, due)
    ensures var h := Heard(run, acts, p, i, j + 1);
            if due then Renewed(cfg.env, h) || NotRenewed(cfg.env, h) else h == []
  {
    assert |run| == |acts| + 1;
    hide IsRun, Renewed, NotRenewed, Compared, Heard;
    RoundEnds(cfg, run, acts, p, i, j);
    due :| Compared(run, acts, p, i, j + 1, due)
           && EndsAs(cfg.env, TaskOf(run[j].procs[p]).value, due, Heard(run, acts, p, i, j + 1));
  }

  // ----- rounds begin at their beginning -----

  lemma RoundStarts(cfg: Config, s: State, a: Action, s': State, p: nat)
    requires Indexed(s) && Step(cfg, s, a, s') && !InRound(s, p) && InRound(s', p)
    ensures EnsurePcOf(TaskOf(s'.procs[p]).value) == Some(ReadExpiry)
  {
    hide LookupItem, IsSecret, RefreshStep, EnsureStep, WellIndexed;
  }

  /** Every round stands where a round begun at reading the expiry has come. */
  lemma {:induction false} RoundHasStart(cfg: Config, run: seq<State>, acts: seq<Action>, p: nat, j: nat)
    returns (i: nat)
    requires j < |run| && InRound(run[j], p) && IsRun(cfg, run, acts)
    ensures Round(run, p, i, j)
    decreases j
  {
    assert |run| == |acts| + 1;
    if j == 0 {
      FirstRoundStarts(cfg, run, acts, p);
      i := 0;
    } else {
      StepOf(cfg, run, acts, j - 1);
      hide IsRun, Step, Indexed;
      if InRound(run[j - 1], p) {
        i := RoundHasStart(cfg, run, acts, p, j - 1);
      } else {
        RoundStarts(cfg, run[j - 1], acts[j - 1], run[j], p);
        i := j;
      }
    }
  }

  lemma FirstRoundStarts(cfg: Config, run: seq<State>, acts: seq<Action>, p: nat)
    requires IsRun(cfg, run, acts) && InRound(run[0], p)
    ensures StandsAt(run, p, 0, ReadExpiry)
  {
    assert LegalAt(cfg, run, acts, 0);
  }

  /** A background process that is idle can begin a round at any time. */
  lemma IdleCanStart(cfg: Config, s: State, p: nat) returns (s': State)
    requires Indexed(s) && p in s.procs && s.procs[p] in {Background(None), TokenKeeper(None)}
    ensures Step(cfg, s, Run(p, NoReply), s') && InRound(s', p)
    ensures s'.procs[p].Background? == s.procs[p].Background? && s'.procs[p].TokenKeeper? == s.procs[p].TokenKeeper?
  {
    var me := if s.procs[p].Background? then Background(Some(Ensuring(ReadExpiry))) else TokenKeeper(Some(ReadExpiry));
    s' := s.(procs := s.procs[p := me]);
  }
}
