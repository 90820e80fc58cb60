/**
 When the condition of the overlap bound fails: two replicas that win the lease from each other for ever, each
 as late in its answers and its failing rounds as the timing allows (src/leader.rs:146-181).
 */
module Contest {
  import opened Results
  import opened Leader
  import opened Overlap

  // With `again` a replica that has won renews once more after an interval, and the answer to that is late.

  function Delay(t: Timing, again: bool): nat {
    if again then t.callLimit else 0
  }

  function Extra(t: Timing, again: bool): nat {
    if again then t.renew else 0
  }

  /** From the last renewal of a replica to its next winning. */
  function Pace(t: Timing, again: bool): nat
    requires t.renew > 0
  {
    Delay(t, again) + Fails(t)
  }

  predicate Endless(t: Timing, again: bool)
    requires t.renew > 0
  {
    t.ttl > 0 && Pace(t, again) >= 2 * t.ttl + Extra(t, again)
  }

  predicate RenewedAt(w: World, r: nat, at: int) {
    r in w.recorded && w.recorded[r] == at
  }

  /** Replica `r` keeps to the plan by which its last renewal was, or will next be, at `v`. */
  predicate Lane(t: Timing, again: bool, w: World, r: nat, v: int)
    requires t.renew > 0
  {
    && r in w.reps
    && match w.reps[r]
       case Acquiring => w.now <= v <= t.ttl + Extra(t, again)
       case Acquired(at) =>
         at == v && RenewedAt(w, r, v) && v <= w.now <= v + Delay(t, again) && v <= t.ttl + Extra(t, again)
       case Sleeping(since, errors, _) =>
         || (again && since == v - t.renew && errors == 0 && RenewedAt(w, r, since) && since <= w.now <= v)
         || (&& errors < ErrorThreshold(t) && since == v + Delay(t, again) + Rounds(t, errors)
             && RenewedAt(w, r, v) && since <= w.now <= since + t.renew + t.callLimit)
       case Awaiting(since, errors, _, answer, _) =>
         && again && since == v - t.renew && errors == 0 && answer == Held
         && RenewedAt(w, r, v) && v <= w.now <= v + t.callLimit
       case _ => false
  }

  /** When the plan has the replica act next. */
  function NextAct(t: Timing, again: bool, me: Replica, v: int): int {
    match me
    case Acquired(_) => v + Delay(t, again)
    case Sleeping(since, _, _) => if since < v then v else since + t.renew + t.callLimit
    case Awaiting(_, _, _, _, _) => v + t.callLimit
    case _ => v
  }

  /** How many acts may be due at one moment. */
  function Due(t: Timing, again: bool, w: World, r: nat, v: int): nat
    requires r in w.reps
  {
    if w.now < NextAct(t, again, w.reps[r], v) then 0 else
    match w.reps[r]
    case Acquired(_) => 3
    case Sleeping(since, _, _) => if since < v then 3 else 1
    case Awaiting(_, _, _, _, _) => 2
    case _ => 4
  }

  /** `x` leads: it renewed last, a lifetime or more after `y`, and early enough for `y` to win after `x` runs out. */
  predicate Good(t: Timing, again: bool, w: World, x: nat, y: nat, vx: int, vy: int)
    requires t.renew > 0
  {
    && ((x == 0 && y == 1) || (x == 1 && y == 0))
    && (forall r :: r in w.reps ==> r == 0 || r == 1)
    && Lane(t, again, w, x, vx) && Lane(t, again, w, y, vy)
    && vy + Extra(t, again) + t.ttl <= vx <= vy + Pace(t, again) - t.ttl
    && (w.reps[y].Acquiring? ==> w.reps[x].Acquiring?)
    && w.lease.holder == (if w.reps[y].Acquiring? then None else if w.reps[x].Acquiring? then Some(y) else Some(x))
    && (w.lease.holder.Some? ==> RenewedAt(w, w.lease.holder.value, w.lease.renewedAt))
  }

  /** From then on both are in the loop. */
  function Opening(t: Timing, again: bool): nat {
    t.ttl + Extra(t, again) + Delay(t, again)
  }

  predicate Entered(t: Timing, again: bool, w: World) {
    w.now > Opening(t, again) ==> BothInLoop(w, 0, 1)
  }

  lemma GoodEntered(t: Timing, again: bool, w: World, x: nat, y: nat, vx: int, vy: int)
    requires t.renew > 0 && Good(t, again, w, x, y, vx, vy)
    ensures Entered(t, again, w)
  {
  }

  predicate Path(t: Timing, again: bool, run: seq<World>, acts: seq<Action>)
    requires t.renew > 0
  {
    IsRun(t, run, acts) && forall k :: 0 <= k < |run| ==> Entered(t, again, run[k])
  }

  lemma Push(t: Timing, again: bool, run: seq<World>, acts: seq<Action>, a: Action, w: World)
    requires t.renew > 0 && Path(t, again, run, acts) && Step(t, run[|run| - 1], a, w) && Entered(t, again, w)
    ensures Path(t, again, run + [w], acts + [a])
  {
    hide Step, IsRun, Entered;
    Extend(t, run, acts, a, w);
  }

  lemma LaneFrame(t: Timing, again: bool, w: World, w': World, r: nat, v: int)
    requires t.renew > 0 && Lane(t, again, w, r, v) && w'.now == w.now && r in w'.reps && w'.reps[r] == w.reps[r]
    requires r in w.recorded ==> r in w'.recorded && w'.recorded[r] == w.recorded[r]
    ensures Lane(t, again, w', r, v)
    ensures Due(t, again, w', r, v) == Due(t, again, w, r, v)
  {
  }

  // ----- the acts, one by one -----

  /** The act of `r` ends in `after`, its own plan being `v'`; `mid` is the world between if there are two steps. */
  datatype Act = Act(mid: seq<World>, acts: seq<Action>, after: World, v: int)

  function Acquires(w: World, r: nat, v: int): Act {
    Act([], [TryAcquire(r, true)], Granted(w, r).(reps := w.reps[r := Acquired(w.now)]), v)
  }

  function Enters(w: World, r: nat, v: int): Act {
    Act([w.(reps := w.reps[r := Initializing(w.now)])], [AcquireReturns(r), EnterLoop(r)],
        w.(reps := w.reps[r := Sleeping(w.now, 0, false)]), v)
  }

  function RenewsAgain(w: World, r: nat, v: int): Act
    requires r in w.reps && w.reps[r].Sleeping?
  {
    var me := w.reps[r];
    Act([], [TryRenew(r, true, true)],
        Granted(w, r).(reps := w.reps[r := Awaiting(me.since, me.errors, me.renewed, Held, w.now)]), v)
  }

  function HearsLate(w: World, r: nat, v: int): Act {
    Act([], [RenewReturns(r)], w.(reps := w.reps[r := Sleeping(w.now, 0, true)]), v)
  }

  function Misses(w: World, r: nat, v: int): Act
    requires r in w.reps && w.reps[r].Sleeping?
  {
    var me := w.reps[r];
    Act([w.(reps := w.reps[r := Awaiting(me.since, me.errors, me.renewed, Failed, w.now)])],
        [TryRenew(r, false, false), RenewReturns(r)],
        w.(reps := w.reps[r := Sleeping(w.now, me.errors + 1, me.renewed)]), v)
  }

  function WinsLease(t: Timing, again: bool, w: World, r: nat): Act
    requires r in w.reps && w.reps[r].Sleeping?
  {
    var me := w.reps[r];
    Act([Granted(w, r).(reps := w.reps[r := Awaiting(me.since, me.errors, me.renewed, Held, w.now)])],
        [TryRenew(r, true, true), RenewReturns(r)],
        Granted(w, r).(reps := w.reps[r := Sleeping(w.now, 0, true)]), w.now + Extra(t, again))
  }

  /** The act that is due for `r`. */
  function DueAct(t: Timing, again: bool, w: World, r: nat, v: int): Act
    requires t.renew > 0 && Lane(t, again, w, r, v)
  {
    match w.reps[r]
    case Acquiring => Acquires(w, r, v)
    case Acquired(_) => Enters(w, r, v)
    case Awaiting(_, _, _, _, _) => HearsLate(w, r, v)
    case Sleeping(since, errors, _) =>
      if since < v then RenewsAgain(w, r, v)
      else if errors + 1 < ErrorThreshold(t) then Misses(w, r, v)
      else WinsLease(t, again, w, r)
  }

  /** Whether the act is the winning of the lease by a replica in the loop. */
  predicate IsWin(t: Timing, w: World, r: nat, v: int)
    requires t.renew > 0 && r in w.reps
  {
    w.reps[r].Sleeping? && w.reps[r].since >= v && w.reps[r].errors + 1 >= ErrorThreshold(t)
  }

  /** The steps of an act follow from each other. */
  predicate ActSteps(t: Timing, w: World, act: Act)
    requires t.renew > 0
  {
    if act.mid == [] then |act.acts| == 1 && Step(t, w, act.acts[0], act.after)
    else
      && |act.mid| == 1 && |act.acts| == 2
      && Step(t, w, act.acts[0], act.mid[0]) && Step(t, act.mid[0], act.acts[1], act.after)
  }

  /** Whoever is due is granted what it asks for. */
  lemma LaneWinTime(t: Timing, again: bool, w: World, r: nat, v: int)
    requires t.renew > 0 && Lane(t, again, w, r, v) && IsWin(t, w, r, v) && Due(t, again, w, r, v) > 0
    ensures w.now == v + Pace(t, again)
  {
    FirstRound(t, ErrorThreshold(t));
  }

  lemma LaneTime(t: Timing, again: bool, w: World, r: nat, v: int)
    requires t.renew > 0 && Lane(t, again, w, r, v)
    ensures w.now <= v + Pace(t, again)
    ensures !w.reps[r].Acquiring? ==> r in w.recorded && w.recorded[r] <= v && w.now >= v - Extra(t, again)
    ensures w.now >= v && !w.reps[r].Acquiring? && !(w.reps[r].Sleeping? && w.reps[r].since < v) ==> w.recorded[r] == v
  {
    ThresholdPositive(t);
    RoundsMonotone(t, 1, ErrorThreshold(t));
    FirstRound(t, 1);
    if w.reps[r].Sleeping? && w.reps[r].errors < ErrorThreshold(t) {
      RoundsMonotone(t, w.reps[r].errors + 1, ErrorThreshold(t));
    }
  }

  predicate NeedsLease(t: Timing, w: World, r: nat, v: int)
    requires t.renew > 0 && r in w.reps
  {
    w.reps[r].Acquiring? || (w.reps[r].Sleeping? && w.reps[r].since < v) || IsWin(t, w, r, v)
  }

  lemma LagGranted(t: Timing, again: bool, w: World, x: nat, y: nat, vx: int, vy: int)
    requires t.renew > 0 && Endless(t, again) && Good(t, again, w, x, y, vx, vy)
    requires Due(t, again, w, y, vy) > 0 && NeedsLease(t, w, y, vy)
    ensures Grantable(t, w, y)
  {
    LaneTime(t, again, w, x, vx);
    LaneTime(t, again, w, y, vy);
    if IsWin(t, w, y, vy) {
      LaneWinTime(t, again, w, y, vy);
    }
    hide ErrorThreshold, Rounds, Pace;
  }

  lemma LeadGranted(t: Timing, again: bool, w: World, x: nat, y: nat, vx: int, vy: int)
    requires t.renew > 0 && Endless(t, again) && Good(t, again, w, x, y, vx, vy)
    requires Due(t, again, w, x, vx) > 0 && NeedsLease(t, w, x, vx)
    ensures Grantable(t, w, x) && !IsWin(t, w, x, vx)
  {
    LaneTime(t, again, w, x, vx);
    LaneTime(t, again, w, y, vy);
    if IsWin(t, w, x, vx) {
      LaneWinTime(t, again, w, x, vx);
    }
    hide ErrorThreshold, Rounds, Pace;
  }

  lemma DueSteps(t: Timing, again: bool, w: World, r: nat, v: int)
    requires t.renew > 0 && Lane(t, again, w, r, v) && Due(t, again, w, r, v) > 0
    requires NeedsLease(t, w, r, v) ==> Grantable(t, w, r)
    ensures ActSteps(t, w, DueAct(t, again, w, r, v))
  {
    hide Rounds;
    ThresholdPositive(t);
  }

  /** After its act the replica keeps to its plan, and less is due. */
  lemma DueLane(t: Timing, again: bool, w: World, r: nat, v: int)
    requires t.renew > 0 && Lane(t, again, w, r, v) && Due(t, again, w, r, v) > 0
    ensures var act := DueAct(t, again, w, r, v);
            && Lane(t, again, act.after, r, act.v) && Due(t, again, act.after, r, act.v) < Due(t, again, w, r, v)
            && !act.after.reps[r].Acquiring?
  {
    ThresholdPositive(t);
    if w.reps[r].Sleeping? {
      FirstRound(t, w.reps[r].errors + 1);
    }
    assert Rounds(t, 0) == 0;
    hide Rounds, ErrorThreshold;
  }

  /** What an act leaves alone, and whose the lease then is. */
  lemma DueFrame(t: Timing, again: bool, w: World, r: nat, v: int)
    requires t.renew > 0 && Lane(t, again, w, r, v)
    ensures var act := DueAct(t, again, w, r, v);
            && act.after.now == w.now && act.after.reps.Keys == w.reps.Keys
            && (forall q :: q in w.reps && q != r ==> act.after.reps[q] == w.reps[q])
            && (forall q :: q in w.recorded && q != r ==>
                  q in act.after.recorded && act.after.recorded[q] == w.recorded[q])
            && (if NeedsLease(t, w, r, v) then
                  act.after.lease.holder == Some(r) && RenewedAt(act.after, r, act.after.lease.renewedAt)
                else act.after.lease == w.lease && act.after.recorded == w.recorded)
            && act.v == (if IsWin(t, w, r, v) then w.now + Extra(t, again) else v)
  {
    hide Rounds, ErrorThreshold;
  }

  /** The act of the lagging replica; if it wins, it leads. */
  lemma LagActs(t: Timing, again: bool, w: World, x: nat, y: nat, vx: int, vy: int)
    requires t.renew > 0 && Endless(t, again) && Good(t, again, w, x, y, vx, vy) && Due(t, again, w, y, vy) > 0
    ensures var act := DueAct(t, again, w, y, vy);
            && ActSteps(t, w, act) && act.after.now == w.now
            && x in act.after.reps && Due(t, again, act.after, x, vx) == Due(t, again, w, x, vx)
            && y in act.after.reps && Due(t, again, act.after, y, act.v) < Due(t, again, w, y, vy)
            && (if IsWin(t, w, y, vy) then Good(t, again, act.after, y, x, act.v, vx)
                else Good(t, again, act.after, x, y, vx, act.v))
  {
    if NeedsLease(t, w, y, vy) {
      LagGranted(t, again, w, x, y, vx, vy);
    }
    DueSteps(t, again, w, y, vy);
    DueLane(t, again, w, y, vy);
    DueFrame(t, again, w, y, vy);
    LaneFrame(t, again, w, DueAct(t, again, w, y, vy).after, x, vx);
    LaneTime(t, again, w, x, vx);
    if IsWin(t, w, y, vy) {
      LaneWinTime(t, again, w, y, vy);
    }
    hide DueAct, Lane, ActSteps, Due, Pace, Grantable, IsWin;
  }

  lemma LeadActs(t: Timing, again: bool, w: World, x: nat, y: nat, vx: int, vy: int)
    requires t.renew > 0 && Endless(t, again) && Good(t, again, w, x, y, vx, vy) && Due(t, again, w, x, vx) > 0
    ensures var act := DueAct(t, again, w, x, vx);
            && ActSteps(t, w, act) && act.after.now == w.now && Good(t, again, act.after, x, y, act.v, vy)
            && x in act.after.reps && Due(t, again, act.after, x, act.v) < Due(t, again, w, x, vx)
            && y in act.after.reps && Due(t, again, act.after, y, vy) == Due(t, again, w, y, vy)
  {
    if NeedsLease(t, w, x, vx) {
      LeadGranted(t, again, w, x, y, vx, vy);
    }
    DueSteps(t, again, w, x, vx);
    DueLane(t, again, w, x, vx);
    DueFrame(t, again, w, x, vx);
    LaneFrame(t, again, w, DueAct(t, again, w, x, vx).after, y, vy);
    LaneTime(t, again, w, y, vy);
    hide DueAct, Lane, ActSteps, Due, Pace, Grantable, IsWin;
  }

  // ----- the run -----

  lemma MidEntered(t: Timing, again: bool, w: World, x: nat, y: nat, vx: int, vy: int, r: nat, v: int)
    requires t.renew > 0 && Good(t, again, w, x, y, vx, vy) && (if r == x then v == vx else r == y && v == vy)
    requires Due(t, again, w, r, v) > 0
    ensures var act := DueAct(t, again, w, r, v); forall i :: 0 <= i < |act.mid| ==> Entered(t, again, act.mid[i])
  {
    GoodEntered(t, again, w, x, y, vx, vy);
    hide Rounds, ErrorThreshold;
  }

  lemma ActPath(t: Timing, again: bool, run: seq<World>, acts: seq<Action>, act: Act)
    returns (run': seq<World>, acts': seq<Action>)
    requires t.renew > 0 && Path(t, again, run, acts) && ActSteps(t, run[|run| - 1], act)
    requires forall i :: 0 <= i < |act.mid| ==> Entered(t, again, act.mid[i])
    requires Entered(t, again, act.after)
    ensures Path(t, again, run', acts') && run <= run' && run' != [] && run'[|run'| - 1] == act.after
  {
    hide Path, Step, Entered;
    if act.mid == [] {
      Push(t, again, run, acts, act.acts[0], act.after);
      run', acts' := run + [act.after], acts + [act.acts[0]];
    } else {
      assert Entered(t, again, act.mid[0]);
      Push(t, again, run, acts, act.acts[0], act.mid[0]);
      var run1, acts1 := run + [act.mid[0]], acts + [act.acts[0]];
      assert run1[|run1| - 1] == act.mid[0];
      Push(t, again, run1, acts1, act.acts[1], act.after);
      run', acts' := run1 + [act.after], acts1 + [act.acts[1]];
    }
  }

  /** Who leads, and the two plans. */
  datatype Roles = Roles(x: nat, y: nat, vx: int, vy: int)

  predicate Kept(t: Timing, again: bool, w: World, o: Roles)
    requires t.renew > 0
  {
    Good(t, again, w, o.x, o.y, o.vx, o.vy)
  }

  function AllDue(t: Timing, again: bool, w: World, o: Roles): nat
    requires t.renew > 0 && Kept(t, again, w, o)
  {
    Due(t, again, w, o.x, o.vx) + Due(t, again, w, o.y, o.vy)
  }

  /** One act that is due, and who leads after it. */
  lemma ChosenAct(t: Timing, again: bool, w: World, o: Roles) returns (act: Act, o': Roles)
    requires t.renew > 0 && Endless(t, again) && Kept(t, again, w, o) && AllDue(t, again, w, o) > 0
    ensures ActSteps(t, w, act) && act.after.now == w.now && Kept(t, again, act.after, o')
    ensures AllDue(t, again, act.after, o') < AllDue(t, again, w, o)
    ensures forall i :: 0 <= i < |act.mid| ==> Entered(t, again, act.mid[i])
  {
    if Due(t, again, w, o.y, o.vy) > 0 {
      LagActs(t, again, w, o.x, o.y, o.vx, o.vy);
      MidEntered(t, again, w, o.x, o.y, o.vx, o.vy, o.y, o.vy);
      act := DueAct(t, again, w, o.y, o.vy);
      o' := if IsWin(t, w, o.y, o.vy) then Roles(o.y, o.x, act.v, o.vx) else Roles(o.x, o.y, o.vx, act.v);
    } else {
      LeadActs(t, again, w, o.x, o.y, o.vx, o.vy);
      MidEntered(t, again, w, o.x, o.y, o.vx, o.vy, o.x, o.vx);
      act := DueAct(t, again, w, o.x, o.vx);
      o' := Roles(o.x, o.y, act.v, o.vy);
    }
    hide DueAct, ActSteps, Entered, Due, Lane, IsWin, Endless;
  }

  lemma Acts(t: Timing, again: bool, run: seq<World>, acts: seq<Action>, o: Roles)
    returns (run': seq<World>, acts': seq<Action>, o': Roles)
    requires t.renew > 0 && Endless(t, again) && Path(t, again, run, acts) && Kept(t, again, run[|run| - 1], o)
    requires AllDue(t, again, run[|run| - 1], o) > 0
    ensures Path(t, again, run', acts') && run <= run' && run' != [] && run'[|run'| - 1].now == run[|run| - 1].now
    ensures Kept(t, again, run'[|run'| - 1], o')
    ensures AllDue(t, again, run'[|run'| - 1], o') < AllDue(t, again, run[|run| - 1], o)
  {
    assert run != [];
    hide Path, Endless, Kept, AllDue, ActSteps, Entered;
    var act;
    act, o' := ChosenAct(t, again, run[|run| - 1], o);
    KeptEntered(t, again, act.after, o');
    run', acts' := ActPath(t, again, run, acts, act);
  }

  lemma {:induction false} ActsAll(t: Timing, again: bool, run: seq<World>, acts: seq<Action>, o: Roles)
    returns (run': seq<World>, acts': seq<Action>, o': Roles)
    requires t.renew > 0 && Endless(t, again) && Path(t, again, run, acts) && Kept(t, again, run[|run| - 1], o)
    ensures Path(t, again, run', acts') && run <= run' && run' != [] && run'[|run'| - 1].now == run[|run| - 1].now
    ensures Kept(t, again, run'[|run'| - 1], o') && AllDue(t, again, run'[|run'| - 1], o') == 0
    decreases AllDue(t, again, run[|run| - 1], o)
  {
    assert run != [];
    hide Path, Endless, Kept, AllDue;
    if AllDue(t, again, run[|run| - 1], o) == 0 {
      run', acts', o' := run, acts, o;
    } else {
      var run1, acts1, o1 := Acts(t, again, run, acts, o);
      run', acts', o' := ActsAll(t, again, run1, acts1, o1);
    }
  }

  lemma LaneTick(t: Timing, again: bool, w: World, r: nat, v: int)
    requires t.renew > 0 && Lane(t, again, w, r, v) && Due(t, again, w, r, v) == 0
    ensures Lane(t, again, w.(now := w.now + 1), r, v) && InTime(t, w.reps[r], w.now + 1)
  {
    hide Rounds, ErrorThreshold;
  }

  /** When nothing is due the clock can go on. */
  lemma GoodTick(t: Timing, again: bool, w: World, o: Roles)
    requires t.renew > 0 && Kept(t, again, w, o) && AllDue(t, again, w, o) == 0
    ensures Step(t, w, Tick(1), w.(now := w.now + 1)) && Kept(t, again, w.(now := w.now + 1), o)
  {
    LaneTick(t, again, w, o.x, o.vx);
    LaneTick(t, again, w, o.y, o.vy);
    hide Lane, Due, InTime, Pace;
  }

  lemma {:induction false} Continues(t: Timing, again: bool, run: seq<World>, acts: seq<Action>, o: Roles, n: nat)
    returns (run': seq<World>, acts': seq<Action>, o': Roles)
    requires t.renew > 0 && Endless(t, again) && Path(t, again, run, acts) && Kept(t, again, run[|run| - 1], o)
    ensures Path(t, again, run', acts') && run <= run' && run' != [] && run'[|run'| - 1].now == run[|run| - 1].now + n
    ensures Kept(t, again, run'[|run'| - 1], o')
    decreases n
  {
    assert run != [];
    hide Path, Endless, Kept, Step, Entered;
    if n == 0 {
      run', acts', o' := run, acts, o;
    } else {
      var run1, acts1, o1 := Continues(t, again, run, acts, o, n - 1);
      var run2, acts2, o2 := ActsAll(t, again, run1, acts1, o1);
      var w := run2[|run2| - 1];
      GoodTick(t, again, w, o2);
      KeptEntered(t, again, w.(now := w.now + 1), o2);
      Push(t, again, run2, acts2, Tick(1), w.(now := w.now + 1));
      run', acts', o' := run2 + [w.(now := w.now + 1)], acts2 + [Tick(1)], o2;
    }
  }

  lemma KeptEntered(t: Timing, again: bool, w: World, o: Roles)
    requires t.renew > 0 && Kept(t, again, w, o)
    ensures Entered(t, again, w)
  {
    GoodEntered(t, again, w, o.x, o.y, o.vx, o.vy);
  }

  /** Two replicas that are about to compete; 1 is to be first. */
  lemma Start(t: Timing, again: bool) returns (run: seq<World>, acts: seq<Action>, o: Roles)
    requires t.renew > 0 && Endless(t, again)
    ensures Path(t, again, run, acts) && run != [] && run[|run| - 1].now == 0 && Kept(t, again, run[|run| - 1], o)
  {
    var w := World(0, Lease(None, 0, 0), map[0 := Acquiring, 1 := Acquiring], map[]);
    run, acts, o := [w], [], Roles(0, 1, t.ttl + Extra(t, again), 0);
    assert LegalAt(t, run, acts, 0);
  }

  lemma {:induction false} TimeGoesOn(t: Timing, run: seq<World>, acts: seq<Action>, i: nat, j: nat)
    requires t.renew > 0 && IsRun(t, run, acts) && i <= j < |run|
    ensures run[i].now <= run[j].now
    decreases j
  {
    hide Step;
    if i < j {
      TimeGoesOn(t, run, acts, i, j - 1);
      assert LegalAt(t, run, acts, j);
      StepTime(t, run[j - 1], acts[j - 1], run[j]);
    }
  }

  /** For all such timings two replicas are in the loop together as long as one likes. */
  lemma OverlapUnbounded(t: Timing, again: bool, n: nat) returns (run: seq<World>, acts: seq<Action>, i: nat)
    requires t.renew > 0 && Endless(t, again)
    ensures run != [] && Overlaps(t, run, acts, i, |run| - 1, 0, 1) && run[|run| - 1].now == run[i].now + n
  {
    var run0, acts0, o0 := Start(t, again);
    var run1, acts1, o1 := Continues(t, again, run0, acts0, o0, Opening(t, again) + 1);
    i := |run1| - 1;
    var o;
    run, acts, o := Continues(t, again, run1, acts1, o1, n);
    assert run[i] == run1[i];
    hide Step, LegalAt, Endless, Kept, Opening, BothInLoop;
    forall k | i <= k < |run| ensures BothInLoop(run[k], 0, 1) {
      TimeGoesOn(t, run, acts, i, k);
      assert Entered(t, again, run[k]);
    }
  }

  // ----- the exact condition -----

  /** No overlap of two replicas is longer than `bound`. */
  ghost predicate OverlapsWithin(t: Timing, bound: nat)
    requires t.renew > 0
  {
    forall run: seq<World>, acts: seq<Action>, i: nat, j: nat, a: nat, b: nat | Overlaps(t, run, acts, i, j, a, b) ::
      run[j].now <= run[i].now + bound
  }

  lemma EndlessExactly(t: Timing)
    requires t.renew > 0 && t.ttl > 0
    ensures Settles(t) <==> !Endless(t, false) && !Endless(t, true)
  {
    hide Fails;
  }

  /**
   The overlaps are bounded exactly when failing rounds last less than two lifetimes, and with one more call less
   than two lifetimes and an interval.
   */
  lemma OverlapBoundedExactly(t: Timing)
    requires t.renew > 0 && t.ttl > 0
    ensures (exists bound: nat :: OverlapsWithin(t, bound)) <==> Settles(t)
  {
    EndlessExactly(t);
    hide IsRun, Together, Endless, Settles, Limit;
    if Settles(t) {
      forall run: seq<World>, acts: seq<Action>, i: nat, j: nat, a: nat, b: nat | Overlaps(t, run, acts, i, j, a, b)
        ensures run[j].now <= run[i].now + Limit(t)
      {
        OverlapIsLimited(t, run, acts, i, j, a, b);
      }
      assert OverlapsWithin(t, Limit(t));
    } else {
      forall bound: nat | OverlapsWithin(t, bound) ensures false {
        var run, acts, i := OverlapUnbounded(t, Endless(t, true), bound + 1);
      }
    }
  }

  /** With the shipped constants, in seconds: calls under five of them. */
  lemma ShippedSettles(t: Timing)
    requires t.ttl == LEASE_TTL && t.renew == RENEW_INTERVAL
    ensures Settles(t) <==> t.callLimit < 5
  {
    ShippedBounds(t);
  }
}
