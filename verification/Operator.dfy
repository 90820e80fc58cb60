/**
 The whole operator: every run of reconciles (src/controller.rs) beside the runs of the vault clients
 (src/vault/mod.rs) that their fetches belong to, over restarts and with overlapping leaders.
 */
module Operator {
  import opened Results
  import opened Lookup
  import opened Sessions
  import opened Status
  import opened Controller
  import Vault
  import Protocol
  import Invariants
  import Runs
  import Guarantees

  /**
   A reconcile of some earlier state by the process with client `who`, with its own call to that client; a change
   of the spec; or somebody else's work on the Secret.
   */
  datatype Step = Reconcile(read: nat, who: nat, call: nat, turn: Turn) | EditSpec | Foreign

  /**
   A run of a vault client, one for each time an operator process was started and came to lead; cluster state `i`
   stands beside its state `at[i]`.
   */
  datatype Client = Client(cfg: Protocol.Config, run: seq<Protocol.State>, acts: seq<Protocol.Action>, at: seq<nat>)

  /** The runs side by side. */
  datatype History = History(say: Failure -> string, clients: seq<Client>, states: seq<ClusterState>, steps: seq<Step>)

  /** A reconcile fetches only if its interval and its entries are good. */
  predicate Fetches(spec: Spec) {
    ParseSyncInterval(spec.syncInterval).Every? && BuildRequests(spec).Ok?
  }

  /** Call `p` started after client state `lo`, had returned by state `hi`, and gave `r` to `reqs`. */
  predicate CallGave(client: seq<Protocol.State>, lo: nat, hi: nat, p: nat, reqs: seq<SecretRequest>, r: FetchResult)
    requires lo < |client| && hi < |client|
  {
    && p !in client[lo].procs
    && p in client[hi].procs && client[hi].procs[p].Caller? && client[hi].procs[p].c.Returned?
    && client[hi].procs[p].reqs == reqs && client[hi].procs[p].c.result == r
  }

  predicate LegalReconcile(h: History, i: nat, r: nat, q: nat, p: nat, t: Turn)
    requires Aligned(h) && 0 < i < |h.states|
  {
    && r < i && q < |h.clients| && ServerTyped(h.states[r].resource)
    && t.vws == Snapshot(h.states[r].spec, h.states[r].generation, ReadStatus(h.states[r].resource))
    && (Fetches(t.vws.spec) ==>
          var cl := h.clients[q];
          CallGave(cl.run, cl.at[r], cl.at[i], p, BuildRequests(t.vws.spec).value, t.fetched))
    && h.states[i] == Reconciled(h.states[i - 1], t, h.say)
  }

  predicate LegalEdit(before: ClusterState, after: ClusterState) {
    && after.resource.Obj? && StatusPart(after.resource) == StatusPart(before.resource)
    && after.generation == before.generation + 1
    && after.secretExists == before.secretExists && after.writes == before.writes
  }

  /** State `i`: no status and nothing written at first. The generation counts the changes of the spec. */
  predicate LegalAt(h: History, i: nat)
    requires Aligned(h) && i < |h.states|
  {
    if i == 0 then
      h.states[0].resource.Obj? && "status" !in h.states[0].resource.fields && h.states[0].writes == []
    else match h.steps[i - 1]
      case Reconcile(r, q, p, t) => LegalReconcile(h, i, r, q, p, t)
      case EditSpec => LegalEdit(h.states[i - 1], h.states[i])
      case Foreign => h.states[i] == h.states[i - 1].(secretExists := h.states[i].secretExists)
  }

  /** The client has a state beside each of the `n` cluster states, and goes forward. */
  predicate Beside(c: Client, n: nat) {
    && |c.at| == n
    && (forall i :: 0 <= i < n ==> c.at[i] < |c.run|)
    && (forall i, j :: 0 <= i <= j < n ==> c.at[i] <= c.at[j])
  }

  predicate Aligned(h: History) {
    && |h.states| == |h.steps| + 1
    && forall q :: 0 <= q < |h.clients| ==> Beside(h.clients[q], |h.states|)
  }

  ghost predicate IsRun(h: History) {
    && Aligned(h)
    && (forall q :: 0 <= q < |h.clients| ==> Runs.IsRun(h.clients[q].cfg, h.clients[q].run, h.clients[q].acts))
    && forall i :: 0 <= i < |h.states| ==> LegalAt(h, i)
  }

  // ----- the status -----

  /** The status update a step makes. */
  function EventOf(step: Step, say: Failure -> string): Event {
    if !step.Reconcile? || !Effective(step.turn.api.status) then Edit else
    var t := step.turn;
    match Decide(t.vws.spec, t.fetched)
    case Halt => Edit
    case Report(f, _) => Fail(step.read, t.vws.generation, t.now, say(f))
    case Store(_, _) => if SecretConfirmed(t) then Succeed(step.read, t.vws.generation, t.now) else Edit
  }

  function Resources(states: seq<ClusterState>): seq<Json> {
    seq(|states|, i requires 0 <= i < |states| => states[i].resource)
  }

  function Events(steps: seq<Step>, say: Failure -> string): seq<Event> {
    seq(|steps|, i requires 0 <= i < |steps| => EventOf(steps[i], say))
  }

  lemma MergeGivesObject(target: Json)
    ensures forall s: CrStatus :: MergePatch(target, StatusPatch(s)).Obj?
  {
    hide EncodeStatus;
  }

  lemma SecretKeepsResource(c: ClusterState)
    ensures forall t: Turn, values: seq<string> :: WithSecret(c, t, values).resource == c.resource
  {
  }

  lemma {:induction false} ResourceIsObject(h: History, i: nat)
    requires IsRun(h) && i < |h.states|
    ensures h.states[i].resource.Obj?
  {
    hide MergePatch, StatusPatch, ReadyStatus, FailedStatus, Decide, Fetches, CallGave, WithSecret, SecretConfirmed,
         Runs.IsRun;
    assert LegalAt(h, i);
    if i > 0 {
      ResourceIsObject(h, i - 1);
      MergeGivesObject(h.states[i - 1].resource);
      SecretKeepsResource(h.states[i - 1]);
    }
  }

  lemma StatusLegal(h: History, i: nat)
    requires IsRun(h) && i < |h.states|
    ensures Status.LegalAt(Resources(h.states), Events(h.steps, h.say), i)
  {
    hide MergePatch, StatusPatch, ReadyStatus, FailedStatus, Decide, Fetches, CallGave, WithSecret, StatusTyped,
         SecretConfirmed, Runs.IsRun;
    assert LegalAt(h, i);
    ResourceIsObject(h, i);
    if i > 0 {
      SecretKeepsResource(h.states[i - 1]);
    }
  }

  /** Seen from the status alone, every run of reconciles is a run of status updates. */
  lemma RunOfStatuses(h: History)
    requires IsRun(h)
    ensures Status.IsRun(Resources(h.states), Events(h.steps, h.say))
  {
    hide IsRun, Status.LegalAt;
    assert |h.states| == |h.steps| + 1 by { RunAligned(h); }
    forall i | 0 <= i < |h.states| ensures Status.LegalAt(Resources(h.states), Events(h.steps, h.say), i) {
      StatusLegal(h, i);
    }
  }

  lemma RunAligned(h: History)
    requires IsRun(h)
    ensures Aligned(h)
  {
  }

  /** The spec is fixed by its generation. */
  lemma {:induction false} GenerationFixesSpec(h: History, i: nat, j: nat)
    requires IsRun(h) && i <= j < |h.states|
    ensures h.states[i].generation <= h.states[j].generation
    ensures h.states[i].generation == h.states[j].generation ==> h.states[i].spec == h.states[j].spec
    decreases j
  {
    hide MergePatch, StatusPatch, ReadyStatus, FailedStatus, Decide, Fetches, CallGave, SecretConfirmed, Runs.IsRun;
    if i < j {
      GenerationFixesSpec(h, i, j - 1);
      assert LegalAt(h, j);
    }
  }

  // ----- what is written -----

  /** The value came out of commit `e`: out of a cipher of the named organization, if the entry asks for a vault. */
  ghost predicate EntryFromCommit(env: Vault.Env, log: seq<Protocol.Event>, e: nat, spec: Spec, entry: Entry,
                                  v: string) {
    exists req, item, o: nat, c: nat :: Asks(spec, entry, req) && Guarantees.ServedBy(env, log, req, v, e, item, o, c)
  }

  /** At state `k` the client held the vault of commit `e`, the last one, and the data deliver the spec from it. */
  ghost predicate FromCommit(cl: Client, k: nat, e: nat, spec: Spec, data: map<string, string>)
    requires k < |cl.run|
  {
    var log := cl.run[k].sh.log;
    && Invariants.IsLastCommit(log, e) && cl.run[k].sh.session.vault == Some(log[e].cache)
    && Vault.IsVaultOf(cl.cfg.env, log[e].resp, log[e].key, log[e].cache)
    && WellIndexed(log[e].cache) && Delivers(cl.cfg.env, log[e].cache, spec, data)
    && forall i: nat :: IsLast(spec.data, i) ==>
         EntryFromCommit(cl.cfg.env, log, e, spec, spec.data[i], data[spec.data[i].key])
  }

  /**
   Step `m`, a reconcile of state `r`, submitted `w`, filled from one vault that its own client held between that
   read and that write.
   */
  ghost predicate SubmittedBy(h: History, w: SecretWrite, m: nat, r: nat)
    requires Aligned(h)
  {
    && r <= m < |h.steps| && h.steps[m].Reconcile? && h.steps[m].read == r && h.steps[m].who < |h.clients|
    && h.states[m + 1].writes == h.states[m].writes + [w]
    && w.generation == h.states[r].generation
    && var cl := h.clients[h.steps[m].who];
       exists k: nat, e: nat :: cl.at[r] < k < cl.at[m + 1] && FromCommit(cl, k, e, h.states[r].spec, w.data)
  }

  lemma StorableFetches(t: Turn)
    requires Storable(t)
    ensures Fetches(t.vws.spec)
  {
    hide ParseSyncInterval, BuildRequests, IsNameless;
    StorableExactly(t);
  }

  /** What a call of the session's run gave is delivered by the last commit at some moment of the call. */
  lemma CallDelivers(cl: Client, lo: nat, hi: nat, p: nat, spec: Spec, values: seq<string>) returns (k: nat, e: nat)
    requires Runs.IsRun(cl.cfg, cl.run, cl.acts) && lo <= hi < |cl.run|
    requires BuildRequests(spec).Ok? && CallGave(cl.run, lo, hi, p, BuildRequests(spec).value, Ok(values))
    ensures lo < k < hi && FromCommit(cl, k, e, spec, SecretData(spec.data, values))
  {
    hide Vault.IsVaultOf, WellIndexed, Runs.IsRun, BuildRequests, Asks, SecretData, Guarantees.ServedBy, Yields, HasKey;
    var reqs := BuildRequests(spec).value;
    Guarantees.FetchIsCurrent(cl.cfg, cl.run, cl.acts, p, hi);
    k, e :| && k < hi && Guarantees.ReadsCommit(cl.cfg.env, cl.run[k], p, e, |cl.run[hi].procs[p].passes| == 2)
            && WellIndexed(cl.run[k].sh.log[e].cache)
            && Answers(cl.cfg.env, cl.run[k].sh.log[e].cache, reqs, Ok(values));
    Runs.NotBefore(cl.cfg, cl.run, cl.acts, p, lo);
    var log := cl.run[k].sh.log;
    FetchedIsDelivered(cl.cfg.env, log[e].cache, spec, reqs, values);
    RequestsExactly(spec);
    assert AsksAll(spec, reqs);
    forall i: nat | IsLast(spec.data, i)
      ensures EntryFromCommit(cl.cfg.env, log, e, spec, spec.data[i], SecretData(spec.data, values)[spec.data[i].key])
    {
      SecretDataValue(spec.data, values, i);
      var item, o, c := Guarantees.ServedFrom(cl.cfg, log, e, reqs[i], values[i]);
    }
  }

  /** A reconcile that submits the Secret fills it from a vault held between its read and its write. */
  lemma TurnSubmits(h: History, m: nat) returns (w: SecretWrite)
    requires IsRun(h) && m < |h.steps| && h.steps[m].Reconcile? && Submits(h.steps[m].turn)
    ensures SubmittedBy(h, w, m, h.steps[m].read)
  {
    hide Storable, Reconciled, CallGave, FromCommit, Runs.IsRun, BuildRequests, ParseSyncInterval, SecretData;
    assert LegalAt(h, m + 1);
    var r, p, t := h.steps[m].read, h.steps[m].call, h.steps[m].turn;
    WrittenAllOrNothing(h.states[m], t, h.say);
    var before, after := h.states[m].writes, h.states[m + 1].writes;
    w := after[|before|];
    assert after == before + [w];
    StorableFetches(t);
    assert t.fetched.Ok? by { StorableExactly(t); StorableIsOk(t); }
    var cl := h.clients[h.steps[m].who];
    assert Beside(cl, |h.states|);
    var k, e := CallDelivers(cl, cl.at[r], cl.at[m + 1], p, t.vws.spec, t.fetched.value);
  }

  lemma StorableIsOk(t: Turn)
    requires Storable(t)
    ensures t.fetched.Ok?
  {
  }

  /**
   Every Secret ever submitted was filled by one reconcile, completely, from one vault that its client held
   between that reconcile's read and its write; and it was made for the one spec of its generation.
   */
  lemma {:induction false} WritesAreComplete(h: History, i: nat, n: nat)
    requires IsRun(h) && i < |h.states| && n < |h.states[i].writes|
    ensures var w := h.states[i].writes[n];
            exists m: nat, r: nat ::
              && m < i && SubmittedBy(h, w, m, r)
              && forall j :: 0 <= j < |h.states| && h.states[j].generation == w.generation ==>
                   h.states[j].spec == h.states[r].spec
    decreases i
  {
    hide SubmittedBy, Submits, Reconciled, CallGave, Fetches, Runs.IsRun;
    assert LegalAt(h, i);
    if i > 0 {
      if n < |h.states[i - 1].writes| {
        WritesAreComplete(h, i - 1, n);
        WritesGrow(h, i - 1);
      } else {
        var r, t := h.steps[i - 1].read, h.steps[i - 1].turn;
        WrittenAllOrNothing(h.states[i - 1], t, h.say);
        var w := TurnSubmits(h, i - 1);
        WriteIs(h, w, i - 1, r);
        OneSpec(h, r);
      }
    }
  }

  lemma WritesGrow(h: History, i: nat)
    requires IsRun(h) && i + 1 < |h.states|
    ensures h.states[i].writes <= h.states[i + 1].writes
  {
    hide Submits, Reconciled, CallGave, Fetches, Runs.IsRun;
    assert LegalAt(h, i + 1);
    if h.steps[i].Reconcile? {
      WrittenAllOrNothing(h.states[i], h.steps[i].turn, h.say);
    }
  }

  lemma WriteIs(h: History, w: SecretWrite, m: nat, r: nat)
    requires Aligned(h) && SubmittedBy(h, w, m, r)
    ensures h.states[m + 1].writes == h.states[m].writes + [w] && w.generation == h.states[r].generation
  {
  }

  lemma OneSpec(h: History, r: nat)
    requires IsRun(h) && r < |h.states|
    ensures forall j :: 0 <= j < |h.states| && h.states[j].generation == h.states[r].generation ==>
            h.states[j].spec == h.states[r].spec
  {
    hide IsRun;
    forall j | 0 <= j < |h.states| && h.states[j].generation == h.states[r].generation
        ensures h.states[j].spec == h.states[r].spec {
      if j <= r {
        GenerationFixesSpec(h, j, r);
      } else {
        GenerationFixesSpec(h, r, j);
      }
    }
  }

  // ----- what ready means -----

  /** Step `m` made the status that state `i` has, having submitted its Secret with success. */
  ghost predicate ReadySince(h: History, i: nat, m: nat)
    requires Aligned(h) && i < |h.states|
  {
    && m < i && h.steps[m].Reconcile? && Submits(h.steps[m].turn)
    && StatusPart(h.states[i].resource) == StatusPart(h.states[m + 1].resource)
    && Sound(h.states[i].resource)
    && StatusOf(h.states[i].resource).observedGeneration == Some(h.steps[m].turn.vws.generation)
  }

  lemma RunSoundAt(h: History, i: nat)
    requires IsRun(h) && i < |h.states|
    ensures Sound(h.states[i].resource)
  {
    hide IsRun, Sound, Status.IsRun;
    RunOfStatuses(h);
    RunSound(Resources(h.states), Events(h.steps, h.say), i);
  }

  /** A step that makes a status update, and what it was. */
  lemma UpdateAt(h: History, i: nat)
    requires IsRun(h) && i < |h.steps| && !EventOf(h.steps[i], h.say).Edit?
    ensures Sound(h.states[i + 1].resource)
    ensures var u, s := EventOf(h.steps[i], h.say), StatusOf(h.states[i + 1].resource);
            s.ready == u.Succeed? && s.observedGeneration == Some(u.generation)
  {
    RunAligned(h);
    hide IsRun, Sound, Status.IsRun, EventOf, StatusOf, ServerTyped, DecodeStatus;
    RunOfStatuses(h);
    var rs, us := Resources(h.states), Events(h.steps, h.say);
    assert rs[i + 1] == h.states[i + 1].resource && us[i] == EventOf(h.steps[i], h.say);
    hide Resources, Events;
    UpdateShows(rs, us, i);
  }

  lemma NoUpdateAt(h: History, i: nat)
    requires IsRun(h) && i < |h.steps| && EventOf(h.steps[i], h.say).Edit?
    ensures StatusPart(h.states[i + 1].resource) == StatusPart(h.states[i].resource)
  {
    RunAligned(h);
    hide IsRun, Status.IsRun, EventOf, Status.LegalAt;
    RunOfStatuses(h);
    StatusUntouched(Resources(h.states), Events(h.steps, h.say), i);
  }

  lemma StatusUntouched(rs: seq<Json>, us: seq<Event>, i: nat)
    requires Status.IsRun(rs, us) && i < |us| && us[i].Edit?
    ensures StatusPart(rs[i + 1]) == StatusPart(rs[i])
  {
    assert Status.LegalAt(rs, us, i + 1);
  }

  lemma SucceedSubmits(step: Step, say: Failure -> string)
    requires EventOf(step, say).Succeed?
    ensures step.Reconcile? && Submits(step.turn) && EventOf(step, say).generation == step.turn.vws.generation
  {
    hide Storable, Decide;
    StorableExactly(step.turn);
  }

  lemma SameStatus(a: Json, b: Json)
    requires Sound(a) && Sound(b) && StatusPart(a) == StatusPart(b)
    ensures StatusOf(a) == StatusOf(b)
  {
  }

  lemma {:induction false} ReadyHasStep(h: History, i: nat) returns (m: nat)
    requires IsRun(h) && i < |h.states| && Sound(h.states[i].resource) && StatusOf(h.states[i].resource).ready
    ensures ReadySince(h, i, m)
    decreases i
  {
    hide Sound, EventOf, Submits, StatusOf, Runs.IsRun;
    assert LegalAt(h, i);
    if i == 0 {
      NotReadyAtFirst(h.states[0].resource);
    } else {
      hide IsRun;
      if EventOf(h.steps[i - 1], h.say).Edit? {
        NoUpdateAt(h, i - 1);
        RunSoundAt(h, i - 1);
        SameStatus(h.states[i].resource, h.states[i - 1].resource);
        m := ReadyHasStep(h, i - 1);
      } else {
        m := i - 1;
        UpdateAt(h, m);
        SucceedSubmits(h.steps[m], h.say);
      }
    }
  }

  lemma NotReadyAtFirst(server: Json)
    requires server.Obj? && "status" !in server.fields
    ensures ServerTyped(server) && !StatusOf(server).ready
  {
  }

  /**
   What Ready means, over every run and however stale the reads: the very reconcile that set it submitted a
   Secret for the generation the status names, holding every key of that generation's spec and no other, each
   with what its last entry asks for, all from the vault its client had last committed at one moment between
   that reconcile's read and its write.
   */
  lemma ReadyMeansDelivered(h: History, i: nat)
    requires IsRun(h) && i < |h.states|
    ensures Sound(h.states[i].resource)
    ensures StatusOf(h.states[i].resource).ready ==>
              exists w: SecretWrite, m: nat, r: nat ::
                && m < i && SubmittedBy(h, w, m, r)
                && StatusPart(h.states[i].resource) == StatusPart(h.states[m + 1].resource)
                && StatusOf(h.states[i].resource).observedGeneration == Some(w.generation)
  {
    RunAligned(h);
    hide IsRun, Sound, SubmittedBy, Submits, StatusOf;
    RunSoundAt(h, i);
    if StatusOf(h.states[i].resource).ready {
      var m := ReadyHasStep(h, i);
      var w := TurnSubmits(h, m);
      SubmittedGeneration(h, w, m);
    }
  }

  lemma SubmittedGeneration(h: History, w: SecretWrite, m: nat)
    requires IsRun(h) && m < |h.steps| && h.steps[m].Reconcile? && SubmittedBy(h, w, m, h.steps[m].read)
    ensures w.generation == h.steps[m].turn.vws.generation
  {
    hide Runs.IsRun, FromCommit, Reconciled, Fetches, CallGave;
    assert LegalAt(h, m + 1);
  }
}
