/**
 Leader election (src/leader.rs, src/main.rs): the renewal loop, and replicas competing for one lease
 record in real time. The lease service is assumed to apply each request atomically, to grant a lease
 that is free, expired or already the caller's, and to release a lease only for its holder.
 */
module Leader {
  import opened Results

  /** Lease lifetime, renewal interval, and the longest lease call and client initialization. */
  datatype Timing = Timing(ttl: nat, renew: nat, callLimit: nat, initLimit: nat)

  const LEASE_TTL: nat := 15
  const RENEW_INTERVAL: nat := 5

  function ErrorThreshold(t: Timing): nat
    requires t.renew > 0
  {
    if t.ttl / t.renew > 2 then t.ttl / t.renew else 2
  }

  lemma ThresholdFits(t: Timing)
    requires t.renew > 0 && t.ttl >= 2 * t.renew
    ensures ErrorThreshold(t) * t.renew <= t.ttl
  {
    assert t.ttl == t.ttl / t.renew * t.renew + t.ttl % t.renew;
  }

  // ----- the renewal loop -----

  datatype Answer = Held | Lost | Failed

  /** The error count after an answer; `None` when the loop ends. */
  function AfterAnswer(threshold: nat, errors: nat, a: Answer): Option<nat> {
    match a
    case Held => Some(0)
    case Lost => None
    case Failed => if errors + 1 >= threshold then None else Some(errors + 1)
  }

  /**
   The loop ends on answer `n`: it lost the lease, or this and the answers before it make `threshold` failures
   in a row.
   */
  predicate EndsAt(answers: seq<Answer>, threshold: nat, n: nat)
    requires n < |answers|
  {
    || answers[n] == Lost
    || (n + 1 >= threshold && forall i :: n + 1 - threshold <= i <= n ==> answers[i] == Failed)
  }

  /** `keep_renewing` on the answers it gets, in order: the answer it ends on, or none if it is still running. */
  method KeepRenewing(answers: seq<Answer>, threshold: nat) returns (end: Option<nat>)
    requires threshold > 0
    ensures end.Some? ==> end.value < |answers| && EndsAt(answers, threshold, end.value)
    ensures forall m :: 0 <= m < (if end.Some? then end.value else |answers|) ==> !EndsAt(answers, threshold, m)
  {
    var errors: nat := 0;
    for n := 0 to |answers|
      invariant errors < threshold && errors <= n
      invariant forall i :: n - errors <= i < n ==> answers[i] == Failed
      invariant errors < n ==> answers[n - errors - 1] != Failed
      invariant forall m :: 0 <= m < n ==> !EndsAt(answers, threshold, m)
    {
      var next := AfterAnswer(threshold, errors, answers[n]);
      if next.None? {
        return Some(n);
      }
      errors := next.value;
    }
    return None;
  }

  // ----- replicas and the lease record -----

  /** `heldSince` is when the present (or last) holder took the lease. */
  datatype Lease = Lease(holder: Option<nat>, renewedAt: int, heldSince: int)

  datatype Replica =
    | Acquiring
    | Acquired(at: int)                                                    // granted; the answer is on its way
    | Initializing(since: int)                                             // `acquire` returned; no renewals yet
    | Sleeping(since: int, errors: nat, renewed: bool)                     // in the loop
    | Awaiting(since: int, errors: nat, renewed: bool, answer: Answer, at: int) // in the loop; answer on its way
    | Gone

  /** `recorded` is when the service last recorded a renewal by each replica. */
  datatype World = World(now: int, lease: Lease, reps: map<nat, Replica>, recorded: map<nat, int>)

  datatype Action =
    | Tick(d: nat)
    | TryAcquire(r: nat, answered: bool)
    | AcquireReturns(r: nat)
    | EnterLoop(r: nat)
    | TryRenew(r: nat, arrives: bool, answered: bool)
    | RenewReturns(r: nat)
    | Quit(r: nat)
    | StepDown(r: nat)
    | Restart(r: nat)

  predicate Grantable(t: Timing, w: World, r: nat) {
    w.lease.holder.None? || w.lease.holder == Some(r) || w.now >= w.lease.renewedAt + t.ttl
  }

  function Granted(w: World, r: nat): World {
    w.(lease := Lease(Some(r), w.now, if w.lease.holder == Some(r) then w.lease.heldSince else w.now),
       recorded := w.recorded[r := w.now])
  }

  /** The time by which a replica must have moved on; only bounded waits have one. */
  predicate InTime(t: Timing, me: Replica, now: int) {
    match me
    case Acquired(at) => now <= at + t.callLimit
    case Initializing(since) => now <= since + t.initLimit
    case Sleeping(since, _, _) => now <= since + t.renew + t.callLimit
    case Awaiting(since, _, _, _, _) => now <= since + t.renew + t.callLimit
    case _ => true
  }

  predicate InLoop(me: Replica) {
    me.Sleeping? || me.Awaiting?
  }

  predicate Step(t: Timing, w: World, a: Action, w': World)
    requires t.renew > 0
  {
    match a
    case Tick(d) =>
      (forall r :: r in w.reps ==> InTime(t, w.reps[r], w.now + d)) && w' == w.(now := w.now + d)
    case TryAcquire(r, answered) =>
      && r in w.reps && w.reps[r].Acquiring?
      && (if !Grantable(t, w, r) then w' == w
          else w' == Granted(w, r).(reps := w.reps[r := if answered then Acquired(w.now) else Acquiring]))
    case AcquireReturns(r) =>
      r in w.reps && w.reps[r].Acquired? && w' == w.(reps := w.reps[r := Initializing(w.now)])
    case EnterLoop(r) =>
      r in w.reps && w.reps[r].Initializing? && w' == w.(reps := w.reps[r := Sleeping(w.now, 0, false)])
    case TryRenew(r, arrives, answered) =>
      && r in w.reps && w.reps[r].Sleeping? && w.now >= w.reps[r].since + t.renew
      && var me, granted := w.reps[r], arrives && Grantable(t, w, r);
         var answer := if !(arrives && answered) then Failed else if granted then Held else Lost;
         w' == (if granted then Granted(w, r) else w).(
           reps := w.reps[r := Awaiting(me.since, me.errors, me.renewed, answer, w.now)])
    case RenewReturns(r) =>
      && r in w.reps && w.reps[r].Awaiting?
      && var me := w.reps[r];
         var next := AfterAnswer(ErrorThreshold(t), me.errors, me.answer);
         w' == w.(reps := w.reps[r := if next.None? then Gone
                                      else Sleeping(w.now, next.value, me.renewed || me.answer == Held)])
    case Quit(r) => r in w.reps && w' == w.(reps := w.reps[r := Gone])
    case StepDown(r) =>
      r in w.reps && w.reps[r].Gone? && w.lease.holder == Some(r) && w' == w.(lease := w.lease.(holder := None))
    case Restart(r) => r in w.reps && w.reps[r].Gone? && w' == w.(reps := w.reps[r := Acquiring])
  }

  predicate Init(w: World) {
    && w.lease.holder.None? && w.lease.heldSince <= w.now && w.recorded == map[]
    && forall r :: r in w.reps ==> w.reps[r].Acquiring?
  }

  // ----- what every step keeps -----

  /** The longest `errors` failing rounds of the loop can take. */
  function Rounds(t: Timing, errors: nat): nat {
    if errors == 0 then 0 else Rounds(t, errors - 1) + t.renew + t.callLimit
  }

  /** The initialization gap counts until the first renewal inside the loop. */
  function Gap(t: Timing, renewed: bool): nat {
    if renewed then 0 else t.initLimit
  }

  predicate Active(me: Replica) {
    me.Acquired? || me.Initializing? || InLoop(me)
  }

  predicate LocalInv(t: Timing, me: Replica, recorded: int, now: int)
    requires t.renew > 0
  {
    && recorded <= now && InTime(t, me, now)
    && match me
       case Acquired(at) => at <= recorded
       case Initializing(since) => since <= recorded + t.callLimit
       case Sleeping(since, errors, renewed) =>
         && errors < ErrorThreshold(t) && recorded <= since <= now
         && since <= recorded + t.callLimit + Gap(t, renewed) + Rounds(t, errors)
       case Awaiting(since, errors, renewed, answer, at) =>
         && errors < ErrorThreshold(t) && since <= now
         && since <= recorded + t.callLimit + Gap(t, renewed) + Rounds(t, errors)
         && since + t.renew <= at
         && (answer == Held ==> at <= recorded)
       case _ => true
  }

  predicate Inv(t: Timing, w: World)
    requires t.renew > 0
  {
    && w.lease.heldSince <= w.now
    && (w.lease.holder.Some? ==>
          && w.lease.holder.value in w.recorded && w.recorded[w.lease.holder.value] == w.lease.renewedAt
          && w.lease.heldSince <= w.lease.renewedAt)
    && forall r :: r in w.reps && Active(w.reps[r]) ==>
         && r in w.recorded && LocalInv(t, w.reps[r], w.recorded[r], w.now)
         && (w.lease.holder != Some(r) ==> w.recorded[r] + t.ttl <= w.lease.heldSince)
  }

  lemma InitHolds(t: Timing, w: World)
    requires t.renew > 0 && Init(w)
    ensures Inv(t, w)
  {
  }

  lemma GrantKeeps(t: Timing, w: World, r: nat)
    requires t.renew > 0 && Inv(t, w) && Grantable(t, w, r)
    ensures var w' := Granted(w, r);
            && w'.lease.heldSince <= w'.now && w'.lease.heldSince <= w'.lease.renewedAt
            && forall q :: q in w.reps && Active(w.reps[q]) && q != r ==>
                 && q in w'.recorded && LocalInv(t, w.reps[q], w'.recorded[q], w.now)
                 && w'.recorded[q] + t.ttl <= w'.lease.heldSince
  {
    hide LocalInv;
  }

  /** The replica a step is about, after the step. */
  lemma MoverKeeps(t: Timing, w: World, a: Action, w': World, r: nat)
    requires t.renew > 0 && Inv(t, w) && Step(t, w, a, w') && !a.Tick? && r == a.r
    ensures r in w'.reps
    ensures Active(w'.reps[r]) ==>
              && r in w'.recorded && LocalInv(t, w'.reps[r], w'.recorded[r], w'.now)
              && (w'.lease.holder != Some(r) ==> w'.recorded[r] + t.ttl <= w'.lease.heldSince)
  {
    hide ErrorThreshold;
    ThresholdPositive(t);
    if a.RenewReturns? {
      assert Active(w.reps[r]);
      assert Rounds(t, w.reps[r].errors + 1) == Rounds(t, w.reps[r].errors) + t.renew + t.callLimit;
    }
  }

  lemma StepKeeps(t: Timing, w: World, a: Action, w': World)
    requires t.renew > 0 && Inv(t, w) && Step(t, w, a, w')
    ensures Inv(t, w')
  {
    if a.Tick? {
      TickKeeps(t, w, a.d, w');
    } else {
      MoverKeeps(t, w, a, w', a.r);
      hide LocalInv, ErrorThreshold, InTime;
      if (a.TryAcquire? || (a.TryRenew? && a.arrives)) && Grantable(t, w, a.r) {
        GrantKeeps(t, w, a.r);
      }
    }
  }

  lemma TickKeeps(t: Timing, w: World, d: nat, w': World)
    requires t.renew > 0 && Inv(t, w) && Step(t, w, Tick(d), w')
    ensures Inv(t, w')
  {
    hide ErrorThreshold, Rounds;
  }

  lemma ThresholdPositive(t: Timing)
    requires t.renew > 0
    ensures ErrorThreshold(t) > 0
  {
  }

  predicate LegalAt(t: Timing, run: seq<World>, acts: seq<Action>, i: nat)
    requires t.renew > 0 && |run| == |acts| + 1 && i < |run|
  {
    if i == 0 then Init(run[0]) else Step(t, run[i - 1], acts[i - 1], run[i])
  }

  predicate IsRun(t: Timing, run: seq<World>, acts: seq<Action>)
    requires t.renew > 0
  {
    |run| == |acts| + 1 && forall i :: 0 <= i < |run| ==> LegalAt(t, run, acts, i)
  }

  lemma {:induction false} RunInv(t: Timing, run: seq<World>, acts: seq<Action>, i: nat)
    requires t.renew > 0 && IsRun(t, run, acts) && i < |run|
    ensures Inv(t, run[i])
  {
    hide Inv, Init, Step;
    assert LegalAt(t, run, acts, i);
    if i == 0 {
      InitHolds(t, run[0]);
    } else {
      RunInv(t, run, acts, i - 1);
      StepKeeps(t, run[i - 1], acts[i - 1], run[i]);
    }
  }

  // ----- what a request to renew does to the replica that made it -----

  /** Between states `i` and `j` replica `r` does nothing. */
  predicate Still(acts: seq<Action>, i: nat, j: nat, r: nat) {
    forall k :: i <= k < j < |acts| ==> !acts[k].Tick? ==> acts[k].r != r
  }

  lemma StillReplica(t: Timing, w: World, a: Action, w': World, r: nat)
    requires t.renew > 0 && Step(t, w, a, w') && (a.Tick? || a.r != r) && r in w.reps
    ensures r in w'.reps && w'.reps[r] == w.reps[r]
  {
  }

  lemma {:induction false} StaysAs(t: Timing, run: seq<World>, acts: seq<Action>, i: nat, j: nat, r: nat)
    requires t.renew > 0 && IsRun(t, run, acts) && i <= j < |acts| && Still(acts, i, j, r) && r in run[i].reps
    ensures r in run[j].reps && run[j].reps[r] == run[i].reps[r]
    decreases j
  {
    hide Step;
    if i < j {
      StaysAs(t, run, acts, i, j - 1, r);
      assert LegalAt(t, run, acts, j);
      StillReplica(t, run[j - 1], acts[j - 1], run[j], r);
    }
  }

  /**
   What becomes of a replica once the answer to its request is back: renewed with no errors if the lease was to be
   had; gone if it was not; and with one error more, or gone at the threshold, if there was no answer.
   */
  lemma AnswerHeard(t: Timing, run: seq<World>, acts: seq<Action>, i: nat, j: nat, r: nat,
                    arrives: bool, answered: bool)
    requires t.renew > 0 && IsRun(t, run, acts) && i < j < |acts|
    requires acts[i] == TryRenew(r, arrives, answered) && acts[j] == RenewReturns(r) && Still(acts, i + 1, j, r)
    ensures r in run[i].reps && run[i].reps[r].Sleeping? && r in run[j + 1].reps
    ensures var before, after := run[i].reps[r], run[j + 1].reps[r];
            if !(arrives && answered) then
              if before.errors + 1 >= ErrorThreshold(t) then after.Gone?
              else after == Sleeping(run[j].now, before.errors + 1, before.renewed)
            else if Grantable(t, run[i], r) then after == Sleeping(run[j].now, 0, true)
            else after.Gone?
    ensures arrives && Grantable(t, run[i], r) ==>
              run[i + 1].lease.holder == Some(r) && run[i + 1].lease.renewedAt == run[i].now
  {
    assert LegalAt(t, run, acts, i + 1) && LegalAt(t, run, acts, j + 1);
    StaysAs(t, run, acts, i + 1, j, r);
    hide IsRun;
  }

  // ----- the bounds -----

  lemma {:induction false} RoundsMonotone(t: Timing, m: nat, n: nat)
    requires m <= n
    ensures Rounds(t, m) <= Rounds(t, n)
    decreases n
  {
    if m < n {
      RoundsMonotone(t, m, n - 1);
    }
  }

  lemma {:induction false} RoundsAre(t: Timing, n: nat)
    ensures Rounds(t, n) == n * t.renew + n * t.callLimit
  {
    if n > 0 {
      RoundsAre(t, n - 1);
      assert n * t.renew == (n - 1) * t.renew + t.renew;
      assert n * t.callLimit == (n - 1) * t.callLimit + t.callLimit;
    }
  }

  /** The longest a replica can be in the loop after its last recorded renewal. */
  function Stay(t: Timing, renewed: bool): nat
    requires t.renew > 0
  {
    Gap(t, renewed) + t.callLimit + Rounds(t, ErrorThreshold(t))
  }

  /** How long past the lease lifetime that is, if the lifetime is at least two intervals. */
  function Overstay(t: Timing, renewed: bool): nat
    requires t.renew > 0
  {
    Gap(t, renewed) + (ErrorThreshold(t) + 1) * t.callLimit
  }

  /** The lifetime covers the failing rounds, the calls in them aside, exactly if it is at least two intervals. */
  lemma StayIsOverstay(t: Timing, renewed: bool)
    requires t.renew > 0
    ensures Stay(t, renewed) <= t.ttl + Overstay(t, renewed) <==> t.ttl >= 2 * t.renew
  {
    hide ErrorThreshold;
    var n := ErrorThreshold(t);
    RoundsAre(t, n);
    CallsOnceMore(n, t.callLimit);
    ThresholdFitsExactly(t);
  }

  lemma CallsOnceMore(n: nat, l: nat)
    ensures (n + 1) * l == n * l + l
  {
  }

  lemma ThresholdFitsExactly(t: Timing)
    requires t.renew > 0
    ensures ErrorThreshold(t) * t.renew <= t.ttl <==> t.ttl >= 2 * t.renew
  {
    if t.ttl >= 2 * t.renew {
      ThresholdFits(t);
    } else {
      LowQuotient(t.ttl, t.renew);
      assert ErrorThreshold(t) == 2;
    }
  }

  lemma LowQuotient(a: nat, b: nat)
    requires b > 0 && a < 2 * b
    ensures a / b < 2
  {
    if a >= b {
      assert a / b == (a - b) / b + 1;
    }
  }

  lemma LoopTime(t: Timing, me: Replica, recorded: int, now: int)
    requires t.renew > 0 && InLoop(me) && LocalInv(t, me, recorded, now)
    ensures now <= recorded + Stay(t, me.renewed)
  {
    hide ErrorThreshold;
    RoundsMonotone(t, me.errors + 1, ErrorThreshold(t));
  }

  /** A replica still in the loop had a renewal recorded at most its longest stay ago. */
  lemma StayIsBounded(t: Timing, run: seq<World>, acts: seq<Action>, i: nat, r: nat)
    requires t.renew > 0 && IsRun(t, run, acts) && i < |run|
    requires r in run[i].reps && InLoop(run[i].reps[r])
    ensures r in run[i].recorded
    ensures run[i].now <= run[i].recorded[r] + Stay(t, run[i].reps[r].renewed)
  {
    hide LocalInv, Stay;
    RunInv(t, run, acts, i);
    assert Active(run[i].reps[r]);
    LoopTime(t, run[i].reps[r], run[i].recorded[r], run[i].now);
  }

  /** So with a lifetime of at least two intervals that is at most one lifetime plus the overstay ago. */
  lemma LeaderWasRenewed(t: Timing, run: seq<World>, acts: seq<Action>, i: nat, r: nat)
    requires t.renew > 0 && t.ttl >= 2 * t.renew && IsRun(t, run, acts) && i < |run|
    requires r in run[i].reps && InLoop(run[i].reps[r])
    ensures r in run[i].recorded
    ensures run[i].now <= run[i].recorded[r] + t.ttl + Overstay(t, run[i].reps[r].renewed)
  {
    hide Overstay, Stay;
    StayIsBounded(t, run, acts, i, r);
    StayIsOverstay(t, run[i].reps[r].renewed);
  }

  /**
   Whenever two replicas are in the loop, at least one of them does not hold the lease, and the holder's tenure
   began at most its stay, less one lifetime, ago.
   */
  lemma OverlapIsBounded(t: Timing, run: seq<World>, acts: seq<Action>, i: nat, a: nat, b: nat)
    requires t.renew > 0 && IsRun(t, run, acts) && i < |run| && a != b && BothInLoop(run[i], a, b)
    ensures exists r :: r in {a, b} && run[i].lease.holder != Some(r)
              && run[i].now + t.ttl <= run[i].lease.heldSince + Stay(t, run[i].reps[r].renewed)
  {
    hide LocalInv, Stay;
    RunInv(t, run, acts, i);
    var r := if run[i].lease.holder == Some(a) then b else a;
    assert Active(run[i].reps[r]);
    StayIsBounded(t, run, acts, i, r);
  }

  /**
   If the longest stay is shorter than two lifetimes, a replica that lost its lease cannot win it back from
   inside the loop.
   */
  lemma NoReturnFromTheLoop(t: Timing, run: seq<World>, acts: seq<Action>, i: nat, r: nat)
    requires t.renew > 0 && IsRun(t, run, acts) && i < |run|
    requires r in run[i].reps && InLoop(run[i].reps[r])
    requires run[i].lease.holder.Some? && run[i].lease.holder != Some(r)
    requires Stay(t, run[i].reps[r].renewed) < 2 * t.ttl
    ensures !Grantable(t, run[i], r)
  {
    hide LocalInv, Stay;
    RunInv(t, run, acts, i);
    assert Active(run[i].reps[r]);
    StayIsBounded(t, run, acts, i, r);
  }

  // ----- how long two replicas can be in the loop together -----

  predicate BothInLoop(w: World, a: nat, b: nat) {
    a in w.reps && b in w.reps && InLoop(w.reps[a]) && InLoop(w.reps[b])
  }

  /** Both are in the loop from state `i` to state `j`; with `renewed`, both have renewed in the loop by then. */
  predicate Together(run: seq<World>, i: nat, j: nat, a: nat, b: nat, renewed: bool)
    requires j < |run|
  {
    forall k :: i <= k <= j ==>
      BothInLoop(run[k], a, b) && (renewed ==> run[k].reps[a].renewed && run[k].reps[b].renewed)
  }

  /**
   The renewal of `x` has run out by time `start`, and `y` either took over after that and holds the lease, or
   has run out as well.
   */
  predicate Lags(t: Timing, w: World, x: nat, y: nat, start: int) {
    && x in w.recorded && y in w.recorded && w.recorded[x] + t.ttl <= start
    && w.lease.holder != Some(x)
    && if w.lease.holder == Some(y) then w.recorded[x] + t.ttl <= w.lease.renewedAt else w.recorded[y] + t.ttl <= start
  }

  /** A step while both stay in the loop: one of them goes on lagging. */
  lemma LagStep(t: Timing, w: World, a: Action, w': World, x: nat, y: nat, start: int)
    requires t.renew > 0 && Step(t, w, a, w') && x != y && start <= w.now
    requires BothInLoop(w, x, y) && BothInLoop(w', x, y) && Lags(t, w, x, y, start)
    requires w.now < w.recorded[x] + 2 * t.ttl
    ensures Lags(t, w', x, y, start) || Lags(t, w', y, x, start)
  {
  }

  lemma LagStarts(t: Timing, w: World, a: nat, b: nat)
    requires t.renew > 0 && Inv(t, w) && a != b && BothInLoop(w, a, b)
    ensures Lags(t, w, a, b, w.now) || Lags(t, w, b, a, w.now)
  {
    hide LocalInv;
    assert Active(w.reps[a]) && Active(w.reps[b]);
  }

  lemma {:induction false} OneLags(t: Timing, run: seq<World>, acts: seq<Action>, i: nat, j: nat, a: nat, b: nat,
                                   renewed: bool)
    requires t.renew > 0 && Stay(t, renewed) < 2 * t.ttl
    requires IsRun(t, run, acts) && i <= j < |run| && a != b && Together(run, i, j, a, b, renewed)
    ensures run[i].now <= run[j].now
    ensures Lags(t, run[j], a, b, run[i].now) || Lags(t, run[j], b, a, run[i].now)
    decreases j
  {
    hide Step, Inv, Lags, Stay;
    if i == j {
      RunInv(t, run, acts, i);
      LagStarts(t, run[i], a, b);
    } else {
      OneLags(t, run, acts, i, j - 1, a, b, renewed);
      var x := if Lags(t, run[j - 1], a, b, run[i].now) then a else b;
      var y := if x == a then b else a;
      assert LegalAt(t, run, acts, j);
      StayIsBounded(t, run, acts, j - 1, x);
      StayGrows(t, run[j - 1].reps[x].renewed, renewed);
      StepTime(t, run[j - 1], acts[j - 1], run[j]);
      LagStep(t, run[j - 1], acts[j - 1], run[j], x, y, run[i].now);
    }
  }

  lemma StayGrows(t: Timing, a: bool, b: bool)
    requires t.renew > 0 && (b ==> a)
    ensures Stay(t, a) <= Stay(t, b)
  {
  }

  lemma StepTime(t: Timing, w: World, a: Action, w': World)
    requires t.renew > 0 && Step(t, w, a, w')
    ensures w.now <= w'.now && (!a.Tick? ==> w'.now == w.now)
  {
  }

  /**
   If the longest stay is shorter than two lifetimes, two replicas are in the loop together for at most that stay
   less one lifetime, whether the lease was taken over after it ran out or was released.
   */
  lemma OverlapLasts(t: Timing, run: seq<World>, acts: seq<Action>, i: nat, j: nat, a: nat, b: nat, renewed: bool)
    requires t.renew > 0 && Stay(t, renewed) < 2 * t.ttl
    requires IsRun(t, run, acts) && i <= j < |run| && a != b && Together(run, i, j, a, b, renewed)
    ensures run[j].now + t.ttl <= run[i].now + Stay(t, renewed)
  {
    hide IsRun, Stay;
    OneLags(t, run, acts, i, j, a, b, renewed);
    var x := if Lags(t, run[j], a, b, run[i].now) then a else b;
    StayIsBounded(t, run, acts, j, x);
    StayGrows(t, run[j].reps[x].renewed, renewed);
  }

  /** In these terms: at most the initialization gap and one call more than the threshold. */
  lemma OverlapIsOverstay(t: Timing, run: seq<World>, acts: seq<Action>, i: nat, j: nat, a: nat, b: nat)
    requires t.renew > 0 && t.ttl >= 2 * t.renew && Overstay(t, false) < t.ttl
    requires IsRun(t, run, acts) && i <= j < |run| && a != b && Together(run, i, j, a, b, false)
    ensures run[j].now <= run[i].now + Overstay(t, false)
  {
    hide IsRun, Stay, Overstay;
    StayIsOverstay(t, false);
    OverlapLasts(t, run, acts, i, j, a, b, false);
  }

  // ----- however long the client takes to initialize -----

  /** A replica that has not renewed in the loop is there only as long as failing rounds last. */
  predicate Unrenewed(t: Timing, me: Replica, start: int, now: int)
    requires t.renew > 0
  {
    InLoop(me) && !me.renewed ==>
      && me.since <= start + Rounds(t, me.errors) && me.errors < ErrorThreshold(t)
      && InTime(t, me, now)
  }

  lemma UnrenewedStep(t: Timing, w: World, a: Action, w': World, r: nat, start: int)
    requires t.renew > 0 && Step(t, w, a, w') && r in w.reps && r in w'.reps && InLoop(w.reps[r]) && InLoop(w'.reps[r])
    requires Unrenewed(t, w.reps[r], start, w.now)
    ensures Unrenewed(t, w'.reps[r], start, w'.now)
    ensures w.reps[r].renewed ==> w'.reps[r].renewed
  {
  }

  lemma {:induction false} UnrenewedLeaves(t: Timing, run: seq<World>, acts: seq<Action>, i: nat, j: nat, r: nat)
    requires t.renew > 0 && IsRun(t, run, acts) && i <= j < |run|
    requires forall k :: i <= k <= j ==> r in run[k].reps && InLoop(run[k].reps[r])
    ensures Unrenewed(t, run[j].reps[r], run[i].now, run[j].now)
    ensures !run[j].reps[r].renewed ==> run[j].now <= run[i].now + Rounds(t, ErrorThreshold(t))
    decreases j
  {
    hide Step, ErrorThreshold;
    if i == j {
      RunInv(t, run, acts, i);
      assert Active(run[i].reps[r]);
    } else {
      UnrenewedLeaves(t, run, acts, i, j - 1, r);
      assert LegalAt(t, run, acts, j);
      UnrenewedStep(t, run[j - 1], acts[j - 1], run[j], r, run[i].now);
    }
    if !run[j].reps[r].renewed {
      RoundsMonotone(t, run[j].reps[r].errors + 1, ErrorThreshold(t));
    }
  }

  /** The first state from which both have renewed; it comes before failing rounds run out. */
  lemma {:induction false} BothRenewed(t: Timing, run: seq<World>, acts: seq<Action>, i: nat, j: nat, a: nat, b: nat)
    returns (m: nat)
    requires t.renew > 0 && IsRun(t, run, acts) && i <= j < |run| && Together(run, i, j, a, b, false)
    requires run[j].now > run[i].now + Rounds(t, ErrorThreshold(t))
    ensures i <= m <= j && run[m].now <= run[i].now + Rounds(t, ErrorThreshold(t)) && Together(run, m, j, a, b, true)
    decreases j
  {
    hide Step, ErrorThreshold, Unrenewed;
    UnrenewedLeaves(t, run, acts, i, j, a);
    UnrenewedLeaves(t, run, acts, i, j, b);
    assert i < j;
    assert LegalAt(t, run, acts, j);
    StepTime(t, run[j - 1], acts[j - 1], run[j]);
    if run[j - 1].now > run[i].now + Rounds(t, ErrorThreshold(t)) {
      m := BothRenewed(t, run, acts, i, j - 1, a, b);
    } else {
      TickKeepsReplicas(t, run[j - 1], acts[j - 1], run[j]);
      m := j - 1;
    }
  }

  lemma TickKeepsReplicas(t: Timing, w: World, a: Action, w': World)
    requires t.renew > 0 && Step(t, w, a, w') && w'.now > w.now
    ensures w'.reps == w.reps
  {
  }

  /**
   However long the client takes to initialize, two replicas are in the loop together for at most the failing
   rounds and a stay less one lifetime, if a stay without the initialization is shorter than two lifetimes.
   */
  lemma OverlapWithoutGap(t: Timing, run: seq<World>, acts: seq<Action>, i: nat, j: nat, a: nat, b: nat)
    requires t.renew > 0 && Stay(t, true) < 2 * t.ttl
    requires IsRun(t, run, acts) && i <= j < |run| && a != b && Together(run, i, j, a, b, false)
    ensures run[j].now <= run[i].now + Rounds(t, ErrorThreshold(t)) ||
            run[j].now + t.ttl <= run[i].now + Rounds(t, ErrorThreshold(t)) + Stay(t, true)
  {
    hide IsRun, Stay, ErrorThreshold, Rounds;
    if run[j].now > run[i].now + Rounds(t, ErrorThreshold(t)) {
      var m := BothRenewed(t, run, acts, i, j, a, b);
      OverlapLasts(t, run, acts, m, j, a, b, true);
    }
  }

  /** With the shipped constants the loop gives up after three failures in a row, and what the bounds then are. */
  lemma ShippedBounds(t: Timing)
    requires t.ttl == LEASE_TTL && t.renew == RENEW_INTERVAL
    ensures ErrorThreshold(t) == 3 && Overstay(t, true) == 4 * t.callLimit
    ensures Rounds(t, ErrorThreshold(t)) == 15 + 3 * t.callLimit
    ensures Stay(t, true) < 2 * t.ttl <==> 4 * t.callLimit < 15
    ensures Stay(t, false) < 2 * t.ttl <==> t.initLimit + 4 * t.callLimit < 15
  {
    RoundsAre(t, 3);
  }

  // ----- the bounds are reached, and what happens beyond them -----

  lemma Extend(t: Timing, run: seq<World>, acts: seq<Action>, a: Action, w: World)
    requires t.renew > 0 && IsRun(t, run, acts) && Step(t, run[|run| - 1], a, w)
    ensures IsRun(t, run + [w], acts + [a])
  {
    hide Step, Init;
    var run', acts' := run + [w], acts + [a];
    forall i | 0 <= i < |run'| ensures LegalAt(t, run', acts', i) {
      if i < |run| {
        assert LegalAt(t, run, acts, i);
      }
    }
  }

  /** Replica 0 alone: granted at time 0, late in every way, and now after `errors` failures. */
  function LateWorld(t: Timing, errors: nat): World {
    var now := t.callLimit + t.initLimit + Rounds(t, errors);
    World(now, Lease(Some(0), 0, 0), map[0 := Sleeping(now, errors, false)], map[0 := 0])
  }

  lemma LateStart(t: Timing) returns (run: seq<World>, acts: seq<Action>)
    requires t.renew > 0
    ensures IsRun(t, run, acts) && run[|run| - 1] == LateWorld(t, 0)
  {
    var w0 := World(0, Lease(None, 0, 0), map[0 := Acquiring], map[]);
    var w1 := World(0, Lease(Some(0), 0, 0), map[0 := Acquired(0)], map[0 := 0]);
    var w2 := w1.(now := t.callLimit);
    var w3 := w2.(reps := map[0 := Initializing(t.callLimit)]);
    var w4 := w3.(now := t.callLimit + t.initLimit);
    run := [w0, w1, w2, w3, w4, LateWorld(t, 0)];
    acts := [TryAcquire(0, true), Tick(t.callLimit), AcquireReturns(0), Tick(t.initLimit), EnterLoop(0)];
    assert LegalAt(t, run, acts, 1) && LegalAt(t, run, acts, 2) && LegalAt(t, run, acts, 3);
    assert LegalAt(t, run, acts, 4) && LegalAt(t, run, acts, 5);
  }

  lemma {:induction false} LateRounds(t: Timing, errors: nat) returns (run: seq<World>, acts: seq<Action>)
    requires t.renew > 0 && errors < ErrorThreshold(t)
    ensures IsRun(t, run, acts) && run[|run| - 1] == LateWorld(t, errors)
  {
    hide IsRun;
    if errors == 0 {
      run, acts := LateStart(t);
    } else {
      run, acts := LateRounds(t, errors - 1);
      var w := LateWorld(t, errors - 1);
      var w1 := w.(now := w.now + t.renew);
      var w2 := w1.(reps := map[0 := Awaiting(w.now, errors - 1, false, Failed, w1.now)]);
      var w3 := w2.(now := w1.now + t.callLimit);
      Extend(t, run, acts, Tick(t.renew), w1);
      Extend(t, run + [w1], acts + [Tick(t.renew)], TryRenew(0, false, false), w2);
      Extend(t, run + [w1] + [w2], acts + [Tick(t.renew)] + [TryRenew(0, false, false)], Tick(t.callLimit), w3);
      run := run + [w1] + [w2] + [w3];
      acts := acts + [Tick(t.renew)] + [TryRenew(0, false, false)] + [Tick(t.callLimit)];
      Extend(t, run, acts, RenewReturns(0), LateWorld(t, errors));
      run, acts := run + [LateWorld(t, errors)], acts + [RenewReturns(0)];
    }
  }

  /** The longest stay is reached, for all timings. */
  lemma StayIsReached(t: Timing) returns (run: seq<World>, acts: seq<Action>)
    requires t.renew > 0
    ensures IsRun(t, run, acts)
    ensures var w := run[|run| - 1];
            && 0 in w.reps && InLoop(w.reps[0]) && !w.reps[0].renewed && 0 in w.recorded
            && w.now == w.recorded[0] + Stay(t, false)
  {
    hide IsRun;
    ThresholdPositive(t);
    var n := ErrorThreshold(t) - 1;
    run, acts := LateRounds(t, n);
    var w := LateWorld(t, n);
    var w' := w.(now := w.now + t.renew + t.callLimit);
    Extend(t, run, acts, Tick(t.renew + t.callLimit), w');
    run, acts := run + [w'], acts + [Tick(t.renew + t.callLimit)];
  }

  /** Replica 0 is in the loop at the end of the run, later than its renewal and the overstay allow. */
  predicate Overstayed(t: Timing, run: seq<World>)
    requires t.renew > 0 && run != []
  {
    var w := run[|run| - 1];
    && 0 in w.reps && InLoop(w.reps[0]) && 0 in w.recorded
    && w.now > w.recorded[0] + t.ttl + Overstay(t, w.reps[0].renewed)
  }

  /** The condition on the constants is needed by all of them: every lifetime below two intervals can be overstayed. */
  lemma ShortLifetimeOverstays(t: Timing) returns (run: seq<World>, acts: seq<Action>)
    requires t.renew > 0 && t.ttl < 2 * t.renew
    ensures IsRun(t, run, acts) && Overstayed(t, run)
  {
    hide IsRun, Overstay, Stay;
    run, acts := StayIsReached(t);
    StayIsOverstay(t, false);
  }
}
