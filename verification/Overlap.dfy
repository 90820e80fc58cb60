/**
 How long two replicas can be in the renewal loop together (src/leader.rs), however long the client takes to
 initialize: a bound that holds under a condition on the timing, and runs without a bound when it fails.
 */
module Overlap {
  import opened Results
  import opened Leader

  /** The longest run of failing rounds, and that with one more call: the longest time between two renewals. */
  function Fails(t: Timing): nat
    requires t.renew > 0
  {
    Rounds(t, ErrorThreshold(t))
  }

  function Between(t: Timing): nat
    requires t.renew > 0
  {
    t.callLimit + Fails(t)
  }

  /** Two replicas cannot win the lease from each other for ever. */
  predicate Settles(t: Timing)
    requires t.renew > 0
  {
    Fails(t) < 2 * t.ttl && Between(t) < 2 * t.ttl + t.renew
  }

  // ----- how far a replica can get before it must renew -----

  /** The latest time of the next request of a replica in the loop. */
  function Reach(t: Timing, me: Replica): int
    requires t.renew > 0 && InLoop(me) && me.errors <= ErrorThreshold(t)
  {
    if me.Awaiting? && me.answer == Held then me.since + t.renew + t.callLimit + Fails(t)
    else me.since + Rounds(t, ErrorThreshold(t) - me.errors)
  }

  /** In the loop, with its request times and its last renewal as the invariant has them. */
  predicate Present(t: Timing, w: World, r: nat)
    requires t.renew > 0
  {
    r in w.reps && InLoop(w.reps[r]) && r in w.recorded && LocalInv(t, w.reps[r], w.recorded[r], w.now)
  }

  lemma IsPresent(t: Timing, w: World, r: nat)
    requires t.renew > 0 && Inv(t, w) && r in w.reps && InLoop(w.reps[r])
    ensures Present(t, w, r)
  {
    hide LocalInv;
    assert Active(w.reps[r]);
  }

  lemma FirstRound(t: Timing, n: nat)
    requires n > 0
    ensures Rounds(t, n) == Rounds(t, n - 1) + t.renew + t.callLimit
  {
  }

  lemma ReachBounds(t: Timing, w: World, r: nat)
    requires t.renew > 0 && Present(t, w, r)
    ensures w.now <= Reach(t, w.reps[r])
    ensures Reach(t, w.reps[r]) <= w.now + Between(t)
  {
    hide ErrorThreshold;
    var me, n := w.reps[r], ErrorThreshold(t);
    FirstRound(t, n - me.errors);
    RoundsMonotone(t, n - me.errors, n);
  }

  /** A step either leaves the renewal of `r` and brings its reach no further, or renews it. */
  predicate ReachMove(t: Timing, w: World, w': World, r: nat)
    requires t.renew > 0 && Present(t, w, r) && Present(t, w', r)
  {
    var before, after := Reach(t, w.reps[r]), Reach(t, w'.reps[r]);
    if w'.recorded[r] == w.recorded[r] then after <= before
    else
      && w'.recorded[r] == w.now == w'.now && w.recorded[r] + t.renew <= w.now && w'.lease.holder == Some(r)
      && after <= before + Fails(t) && after <= w.now + Between(t)
  }

  lemma ReachStep(t: Timing, w: World, a: Action, w': World, r: nat)
    requires t.renew > 0 && Step(t, w, a, w') && Present(t, w, r) && Present(t, w', r)
    ensures ReachMove(t, w, w', r)
  {
    hide ErrorThreshold;
    var me, n := w.reps[r], ErrorThreshold(t);
    FirstRound(t, n - me.errors);
    RoundsMonotone(t, n - me.errors, n);
  }

  /** After a renewal of `r` the other's last one is at least a lifetime older. */
  lemma RenewedApart(t: Timing, w: World, r: nat, q: nat)
    requires t.renew > 0 && Inv(t, w) && w.lease.holder == Some(r) && r != q && Present(t, w, q)
    ensures r in w.recorded && w.recorded[q] + t.ttl <= w.recorded[r]
  {
    hide LocalInv;
    assert Active(w.reps[q]);
  }

  // ----- from the start of the overlap until both have renewed -----

  predicate Both(t: Timing, w: World, a: nat, b: nat)
    requires t.renew > 0
  {
    a != b && Inv(t, w) && Present(t, w, a) && Present(t, w, b)
  }

  /**
   Each reach is within `Between` of the later of the start and the last renewal; renewals since are a lifetime
   apart.
   */
  predicate Early(t: Timing, w: World, a: nat, b: nat, start: int)
    requires t.renew > 0 && Both(t, w, a, b)
  {
    && start <= w.now
    && (Reach(t, w.reps[a]) <= start + Between(t) || Reach(t, w.reps[a]) <= w.recorded[a] + Between(t))
    && (Reach(t, w.reps[b]) <= start + Between(t) || Reach(t, w.reps[b]) <= w.recorded[b] + Between(t))
    && (|| (w.recorded[a] <= start && w.recorded[b] <= start)
        || w.recorded[a] + t.ttl <= w.recorded[b]
        || w.recorded[b] + t.ttl <= w.recorded[a])
  }

  lemma EarlyStarts(t: Timing, w: World, a: nat, b: nat)
    requires t.renew > 0 && Both(t, w, a, b)
    ensures Early(t, w, a, b, w.now)
  {
    ReachBounds(t, w, a);
    ReachBounds(t, w, b);
  }

  lemma EarlyStep(t: Timing, w: World, act: Action, w': World, a: nat, b: nat, start: int)
    requires t.renew > 0 && Step(t, w, act, w') && Both(t, w, a, b) && Both(t, w', a, b) && Early(t, w, a, b, start)
    ensures Early(t, w', a, b, start)
  {
    StepTime(t, w, act, w');
    ReachStep(t, w, act, w', a);
    ReachStep(t, w, act, w', b);
    hide Step, Inv, Present, Reach;
    if w'.recorded[a] != w.recorded[a] {
      RenewedApart(t, w', a, b);
    }
    if w'.recorded[b] != w.recorded[b] {
      RenewedApart(t, w', b, a);
    }
  }

  // ----- the winnings are counted -----

  /** How much is lost each time both have won once. */
  function Loss(t: Timing): nat
    requires t.renew > 0 && Settles(t)
  {
    2 * t.ttl - Fails(t)
  }

  /** The most often a replica can win the lease back. */
  function Wins(t: Timing): nat
    requires t.renew > 0 && Settles(t)
  {
    if Between(t) < 2 * t.ttl then 0 else (Between(t) - 2 * t.ttl) / Loss(t) + 1
  }

  function Times(c: nat, n: nat): nat {
    c * n
  }

  /** `r` can win at most `c` times more, and then its reach is at most `limit`. */
  predicate Slack(t: Timing, w: World, r: nat, c: nat, limit: int)
    requires t.renew > 0 && Settles(t) && Present(t, w, r)
  {
    && Reach(t, w.reps[r]) < w.recorded[r] + 2 * t.ttl + Times(c, Loss(t))
    && Reach(t, w.reps[r]) + Times(c, Fails(t)) <= limit
    && Reach(t, w.reps[r]) <= w.recorded[r] + Between(t)
  }

  /** `x` renewed last a lifetime before `y`, and both have only so many winnings left. */
  ghost predicate Counted(t: Timing, w: World, x: nat, y: nat, limit: int)
    requires t.renew > 0 && Settles(t) && Both(t, w, x, y)
  {
    && w.recorded[x] + t.ttl <= w.recorded[y]
    && exists c: nat, d: nat :: Slack(t, w, x, c, limit) && Slack(t, w, y, d, limit)
  }

  /** `x` cannot reach the time at which the lease of `y` runs out. */
  predicate Doomed(t: Timing, w: World, x: nat, y: nat, limit: int)
    requires t.renew > 0 && Both(t, w, x, y)
  {
    Reach(t, w.reps[x]) < w.recorded[y] + t.ttl && Reach(t, w.reps[x]) <= limit
  }

  ghost predicate Late(t: Timing, w: World, a: nat, b: nat, limit: int)
    requires t.renew > 0 && Settles(t) && Both(t, w, a, b)
  {
    Counted(t, w, a, b, limit) || Counted(t, w, b, a, limit) || Doomed(t, w, a, b, limit) || Doomed(t, w, b, a, limit)
  }

  lemma OneLess(c: nat, n: nat)
    requires c > 0
    ensures Times(c, n) == Times(c - 1, n) + n
  {
  }

  lemma NoTimes(n: nat)
    ensures Times(0, n) == 0
  {
  }

  lemma SlackKept(t: Timing, w: World, w': World, r: nat, c: nat, limit: int)
    requires t.renew > 0 && Settles(t) && Present(t, w, r) && Present(t, w', r) && ReachMove(t, w, w', r)
    requires Slack(t, w, r, c, limit) && w'.recorded[r] == w.recorded[r]
    ensures Slack(t, w', r, c, limit)
  {
    hide Reach, Present, Times;
  }

  /** A replica that wins two lifetimes after its last renewal has one winning less. */
  lemma SlackSpent(t: Timing, w: World, w': World, r: nat, c: nat, limit: int)
    requires t.renew > 0 && Settles(t) && Present(t, w, r) && Present(t, w', r) && ReachMove(t, w, w', r)
    requires Slack(t, w, r, c, limit) && w'.recorded[r] != w.recorded[r] && w.recorded[r] + 2 * t.ttl <= w.now
    ensures c > 0 && Slack(t, w', r, c - 1, limit)
  {
    ReachBounds(t, w, r);
    assert c > 0 by { NoTimes(Loss(t)); }
    hide Reach, Present, Fails, Between, Times;
    OneLess(c, Loss(t));
    OneLess(c, Fails(t));
  }

  /** The leading `y` renews again: then `x` is out. */
  lemma RenewsTwice(t: Timing, w: World, w': World, x: nat, y: nat, limit: int)
    requires t.renew > 0 && Settles(t) && Both(t, w, x, y) && Both(t, w', x, y)
    requires ReachMove(t, w, w', x) && ReachMove(t, w, w', y) && Counted(t, w, x, y, limit)
    requires w'.recorded[x] == w.recorded[x] && w'.recorded[y] != w.recorded[y]
    ensures Doomed(t, w', x, y, limit)
  {
    hide Reach, Present, Inv, Fails, Between, Times;
  }

  /** The lagging `x` wins: then `y` lags. */
  lemma WinsBack(t: Timing, w: World, w': World, x: nat, y: nat, limit: int)
    requires t.renew > 0 && Settles(t) && Both(t, w, x, y) && Both(t, w', x, y)
    requires ReachMove(t, w, w', x) && ReachMove(t, w, w', y) && Counted(t, w, x, y, limit)
    requires w'.recorded[x] != w.recorded[x]
    ensures Counted(t, w', y, x, limit)
  {
    RenewedApart(t, w', x, y);
    hide Reach, Present, Inv, Fails, Between, Slack;
    var c: nat, d: nat :| Slack(t, w, x, c, limit) && Slack(t, w, y, d, limit);
    SlackSpent(t, w, w', x, c, limit);
    SlackKept(t, w, w', y, d, limit);
  }

  lemma CountedStep(t: Timing, w: World, act: Action, w': World, x: nat, y: nat, limit: int)
    requires t.renew > 0 && Settles(t) && Step(t, w, act, w') && Both(t, w, x, y) && Both(t, w', x, y)
    requires Counted(t, w, x, y, limit)
    ensures Late(t, w', x, y, limit)
  {
    ReachStep(t, w, act, w', x);
    ReachStep(t, w, act, w', y);
    BothRecorded(t, w, w', x, y);
    hide Step, Reach, Present, Inv, Fails, Between, Slack, Loss, Doomed, ReachMove;
    if w'.recorded[x] != w.recorded[x] {
      WinsBack(t, w, w', x, y, limit);
    } else if w'.recorded[y] != w.recorded[y] {
      RenewsTwice(t, w, w', x, y, limit);
    } else {
      var c: nat, d: nat :| Slack(t, w, x, c, limit) && Slack(t, w, y, d, limit);
      SlackKept(t, w, w', x, c, limit);
      SlackKept(t, w, w', y, d, limit);
      assert Counted(t, w', x, y, limit);
    }
  }

  lemma BothRecorded(t: Timing, w: World, w': World, x: nat, y: nat)
    requires t.renew > 0 && Both(t, w, x, y) && Both(t, w', x, y)
    ensures x in w.recorded && y in w.recorded && x in w'.recorded && y in w'.recorded
  {
  }

  lemma DoomedStep(t: Timing, w: World, act: Action, w': World, x: nat, y: nat, limit: int)
    requires t.renew > 0 && Step(t, w, act, w') && Both(t, w, x, y) && Both(t, w', x, y) && Doomed(t, w, x, y, limit)
    ensures Doomed(t, w', x, y, limit)
  {
    ReachStep(t, w, act, w', x);
    ReachStep(t, w, act, w', y);
    ReachBounds(t, w, x);
    hide Step, Inv, Reach, Present, Fails, Between;
    if w'.recorded[x] != w.recorded[x] {
      RenewedApart(t, w', x, y);
    }
  }

  lemma LateStep(t: Timing, w: World, act: Action, w': World, a: nat, b: nat, limit: int)
    requires t.renew > 0 && Settles(t) && Step(t, w, act, w') && Both(t, w, a, b) && Both(t, w', a, b)
    requires Late(t, w, a, b, limit)
    ensures Late(t, w', a, b, limit)
  {
    hide Step, Counted, Doomed, Inv, Present;
    if Counted(t, w, a, b, limit) {
      CountedStep(t, w, act, w', a, b, limit);
    } else if Counted(t, w, b, a, limit) {
      CountedStep(t, w, act, w', b, a, limit);
    } else if Doomed(t, w, a, b, limit) {
      DoomedStep(t, w, act, w', a, b, limit);
    } else {
      DoomedStep(t, w, act, w', b, a, limit);
    }
  }

  lemma SlackLimited(t: Timing, w: World, r: nat, c: nat, limit: int)
    requires t.renew > 0 && Settles(t) && Present(t, w, r) && Slack(t, w, r, c, limit)
    ensures w.now <= limit
  {
    ReachBounds(t, w, r);
    hide Reach, Present, Between, Fails, Loss, Settles, Times;
  }

  lemma LateIsLimited(t: Timing, w: World, a: nat, b: nat, limit: int)
    requires t.renew > 0 && Settles(t) && Both(t, w, a, b) && Late(t, w, a, b, limit)
    ensures w.now <= limit
  {
    ReachBounds(t, w, a);
    ReachBounds(t, w, b);
    hide Reach, Present, Inv, Fails, Between, Loss, Slack, Settles;
    if Counted(t, w, a, b, limit) || Counted(t, w, b, a, limit) {
      var c: nat :| Slack(t, w, a, c, limit);
      SlackLimited(t, w, a, c, limit);
    }
  }

  lemma WinsSuffice(t: Timing)
    requires t.renew > 0 && Settles(t)
    ensures Between(t) < 2 * t.ttl + Times(Wins(t), Loss(t))
  {
    hide Fails;
    var s, l := Between(t) - 2 * t.ttl, Loss(t);
    if s >= 0 {
      assert s == s / l * l + s % l;
      assert (s / l + 1) * l == s / l * l + l;
    }
  }

  /** The bound on the overlap. */
  function Limit(t: Timing): nat
    requires t.renew > 0 && Settles(t)
  {
    2 * Between(t) + Times(Wins(t), Fails(t))
  }

  /** Past one `Between` both have renewed since the start, and the counting begins. */
  lemma EarlyIsLate(t: Timing, w: World, a: nat, b: nat, start: int)
    requires t.renew > 0 && Settles(t) && Both(t, w, a, b) && Early(t, w, a, b, start)
    requires w.now > start + Between(t)
    requires w.recorded[a] <= start + Between(t) && w.recorded[b] <= start + Between(t)
    ensures Late(t, w, a, b, start + Limit(t))
  {
    ReachBounds(t, w, a);
    ReachBounds(t, w, b);
    WinsSuffice(t);
    hide Reach, Present, Inv, Fails, Between, Wins, Loss, Times;
    assert Slack(t, w, a, Wins(t), start + Limit(t)) && Slack(t, w, b, Wins(t), start + Limit(t));
    assert Counted(t, w, a, b, start + Limit(t)) || Counted(t, w, b, a, start + Limit(t));
  }

  // ----- over a run -----

  /** Replicas `a` and `b` are in the loop from state `i` to state `j` of a run. */
  predicate Overlaps(t: Timing, run: seq<World>, acts: seq<Action>, i: nat, j: nat, a: nat, b: nat)
    requires t.renew > 0
  {
    IsRun(t, run, acts) && i <= j < |run| && a != b && Together(run, i, j, a, b, false)
  }

  lemma OverlapBoth(t: Timing, run: seq<World>, acts: seq<Action>, i: nat, j: nat, a: nat, b: nat, k: nat)
    requires t.renew > 0 && Overlaps(t, run, acts, i, j, a, b) && i <= k <= j
    ensures Both(t, run[k], a, b)
  {
    hide IsRun, Inv, Present;
    RunInv(t, run, acts, k);
    IsPresent(t, run[k], a);
    IsPresent(t, run[k], b);
  }

  lemma {:induction false} OverlapEarly(t: Timing, run: seq<World>, acts: seq<Action>, i: nat, j: nat, a: nat, b: nat)
    requires t.renew > 0 && Overlaps(t, run, acts, i, j, a, b)
    ensures Both(t, run[j], a, b) && Early(t, run[j], a, b, run[i].now)
    decreases j
  {
    hide Step, Both, Early;
    OverlapBoth(t, run, acts, i, j, a, b, j);
    if i == j {
      EarlyStarts(t, run[i], a, b);
    } else {
      OverlapEarly(t, run, acts, i, j - 1, a, b);
      assert LegalAt(t, run, acts, j);
      EarlyStep(t, run[j - 1], acts[j - 1], run[j], a, b, run[i].now);
    }
  }

  /** A tick leaves the renewals as they were, none of them in the future. */
  lemma TickKeepsRecorded(t: Timing, w: World, act: Action, w': World, r: nat)
    requires t.renew > 0 && Step(t, w, act, w') && w'.now > w.now && Present(t, w, r)
    ensures r in w'.recorded && w'.recorded[r] <= w.now
  {
  }

  lemma {:induction false} OverlapLate(t: Timing, run: seq<World>, acts: seq<Action>, i: nat, j: nat, a: nat, b: nat)
    requires t.renew > 0 && Settles(t) && Overlaps(t, run, acts, i, j, a, b)
    requires run[j].now > run[i].now + Between(t)
    ensures Both(t, run[j], a, b) && Late(t, run[j], a, b, run[i].now + Limit(t))
    decreases j
  {
    hide Step, Present, Inv, Early, Late, Settles, Between, Limit;
    OverlapBoth(t, run, acts, i, j, a, b, j);
    OverlapEarly(t, run, acts, i, j, a, b);
    assert i < j;
    OverlapBoth(t, run, acts, i, j, a, b, j - 1);
    assert LegalAt(t, run, acts, j);
    if run[j - 1].now > run[i].now + Between(t) {
      OverlapLate(t, run, acts, i, j - 1, a, b);
      LateStep(t, run[j - 1], acts[j - 1], run[j], a, b, run[i].now + Limit(t));
    } else {
      TickKeepsRecorded(t, run[j - 1], acts[j - 1], run[j], a);
      TickKeepsRecorded(t, run[j - 1], acts[j - 1], run[j], b);
      EarlyIsLate(t, run[j], a, b, run[i].now);
    }
  }

  /**
   If failing rounds last less than two lifetimes, and a stay without the initialization less than two lifetimes
   and an interval, no overlap is longer than `Limit`, however long the client takes to initialize.
   */
  lemma OverlapIsLimited(t: Timing, run: seq<World>, acts: seq<Action>, i: nat, j: nat, a: nat, b: nat)
    requires t.renew > 0 && Settles(t) && Overlaps(t, run, acts, i, j, a, b)
    ensures run[j].now <= run[i].now + Limit(t)
  {
    hide IsRun, Settles, Late;
    if run[j].now > run[i].now + Between(t) {
      OverlapLate(t, run, acts, i, j, a, b);
      LateIsLimited(t, run[j], a, b, run[i].now + Limit(t));
    }
  }
}
