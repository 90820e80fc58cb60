/**
 One reconcile of a VaultwardenSecret (src/controller.rs) and every run of reconciles: what is written to
 the managed Secret, what the status then says, and when the resource is looked at again.
 */
module Controller {
  import opened Results
  import opened Durations
  import opened Vault
  import opened Lookup
  import opened Sessions
  import opened Status

  datatype Entry = Entry(key: string, secretName: Option<string>, vaultwardenSecret: Option<string>,
                         vault: Option<string>)

  datatype Spec = Spec(syncInterval: string, defaultVault: Option<string>, data: seq<Entry>)

  /** What goes wrong before anything is written; `say` words it for the user. */
  datatype Failure =
    | BadInterval(text: string, problem: DurationError)
    | ZeroInterval
    | Nameless(i: nat, key: string)
    | FetchFailed(cause: VaultError)

  const DEFAULT_SYNC_INTERVAL: nat := 300

  // ----- the interval -----

  datatype Interval = Every(secs: nat) | Invalid(f: Failure) | IntervalPanics

  function ParseSyncInterval(s: string): Interval {
    if s == "" then Every(DEFAULT_SYNC_INTERVAL) else
    match DurationOf(s)
    case Panics => IntervalPanics
    case Done(Err(e)) => Invalid(BadInterval(s, e))
    case Done(Ok(d)) => if d == 0 then Invalid(ZeroInterval) else Every(d)
  }

  /** The intervals accepted: the default for the empty string, else any positive duration the text denotes. */
  lemma IntervalExactly(s: string, secs: nat)
    ensures ParseSyncInterval(s) == Every(secs) <==>
            (s == "" && secs == DEFAULT_SYNC_INTERVAL) || (secs > 0 && exists ts :: Denotes(s, ts, secs))
  {
    hide DurationOf, Denotes;
    AcceptedExactly(s, secs);
    if exists ts :: Denotes("", ts, secs) {
      EmptyDenotesNothing(secs);
    }
  }

  lemma EmptyDenotesNothing(secs: nat)
    ensures !exists ts :: Denotes("", ts, secs)
  {
    hide Denotes;
    AcceptedExactly("", secs);
  }

  // ----- the requests -----

  function NonEmpty(o: Option<string>): Option<string> {
    if o == Some("") then None else o
  }

  function ResolvedName(e: Entry): Option<string> {
    OrElse(NonEmpty(e.secretName), NonEmpty(e.vaultwardenSecret))
  }

  function RequestsFrom(spec: Spec, i: nat): Result<seq<SecretRequest>, Failure>
    requires i <= |spec.data|
    decreases |spec.data| - i
  {
    if i == |spec.data| then Ok([]) else
    var e := spec.data[i];
    if ResolvedName(e).None? then Err(Nameless(i, e.key)) else
    match RequestsFrom(spec, i + 1)
    case Ok(rest) => Ok([SecretRequest(ResolvedName(e).value, OrElse(NonEmpty(e.vault),
        NonEmpty(spec.defaultVault)))] + rest)
    case Err(f) => Err(f)
  }

  function BuildRequests(spec: Spec): Result<seq<SecretRequest>, Failure> {
    RequestsFrom(spec, 0)
  }

  predicate Unset(o: Option<string>) {
    o == None || o == Some("")
  }

  /** `v` is the first of `choices` that is set to something non-empty, if any is. */
  predicate FirstSet(choices: seq<Option<string>>, v: Option<string>) {
    if v.None? then forall k :: 0 <= k < |choices| ==> Unset(choices[k])
    else exists k :: 0 <= k < |choices| && choices[k] == v && v.value != "" && forall j :: 0 <= j < k ==>
        Unset(choices[j])
  }

  /** The request an entry stands for. */
  predicate Asks(spec: Spec, e: Entry, req: SecretRequest) {
    FirstSet([e.secretName, e.vaultwardenSecret], Some(req.name)) && FirstSet([e.vault, spec.defaultVault], req.vault)
  }

  predicate IsNameless(e: Entry) {
    FirstSet([e.secretName, e.vaultwardenSecret], None)
  }

  /** Entry `i` is the first without a name. */
  predicate FirstNameless(spec: Spec, i: nat) {
    i < |spec.data| && IsNameless(spec.data[i]) && forall j :: 0 <= j < i ==> !IsNameless(spec.data[j])
  }

  predicate AsksAll(spec: Spec, reqs: seq<SecretRequest>) {
    |reqs| == |spec.data| && forall i :: 0 <= i < |reqs| ==> Asks(spec, spec.data[i], reqs[i])
  }

  lemma FirstOfTwo(a: Option<string>, b: Option<string>, v: Option<string>)
    ensures FirstSet([a, b], v) <==> v == OrElse(NonEmpty(a), NonEmpty(b))
  {
    var choices := [a, b];
    assert choices[0] == a && choices[1] == b;
    if v.None? {
      assert FirstSet(choices, v) <==> Unset(choices[0]) && Unset(choices[1]);
    } else {
      assert FirstSet(choices, v) <==> v.value != "" && (choices[0] == v || (choices[1] == v && Unset(choices[0])));
    }
  }

  lemma {:induction false} RequestsFromMeaning(spec: Spec, i: nat)
    requires i <= |spec.data|
    ensures match RequestsFrom(spec, i)
            case Ok(rs) =>
              && |rs| == |spec.data| - i
              && forall j :: i <= j < |spec.data| ==> !IsNameless(spec.data[j]) && Asks(spec, spec.data[j], rs[j - i])
            case Err(f) =>
              exists k :: i <= k < |spec.data| && f == Nameless(k, spec.data[k].key) && IsNameless(spec.data[k])
                          && forall j :: i <= j < k ==> !IsNameless(spec.data[j])
    decreases |spec.data| - i
  {
    hide FirstSet;
    if i < |spec.data| {
      var e := spec.data[i];
      FirstOfTwo(e.secretName, e.vaultwardenSecret, None);
      FirstOfTwo(e.secretName, e.vaultwardenSecret, ResolvedName(e));
      FirstOfTwo(e.vault, spec.defaultVault, OrElse(NonEmpty(e.vault), NonEmpty(spec.defaultVault)));
      RequestsFromMeaning(spec, i + 1);
    }
  }

  lemma AsksIsUnique(spec: Spec, e: Entry, a: SecretRequest, b: SecretRequest)
    requires Asks(spec, e, a) && Asks(spec, e, b)
    ensures a == b && !IsNameless(e)
  {
    hide FirstSet;
    FirstOfTwo(e.secretName, e.vaultwardenSecret, None);
    FirstOfTwo(e.secretName, e.vaultwardenSecret, Some(a.name));
    FirstOfTwo(e.secretName, e.vaultwardenSecret, Some(b.name));
    FirstOfTwo(e.vault, spec.defaultVault, a.vault);
    FirstOfTwo(e.vault, spec.defaultVault, b.vault);
  }

  /** The requests are exactly what the entries ask for, in order, or the first entry without a name is refused. */
  lemma RequestsExactly(spec: Spec)
    ensures forall reqs :: BuildRequests(spec) == Ok(reqs) <==> AsksAll(spec, reqs)
    ensures forall i: nat :: i < |spec.data| ==>
              (BuildRequests(spec) == Err(Nameless(i, spec.data[i].key)) <==> FirstNameless(spec, i))
    ensures BuildRequests(spec).Err? ==>
              exists i: nat :: FirstNameless(spec, i) && BuildRequests(spec).error == Nameless(i, spec.data[i].key)
  {
    hide Asks, IsNameless;
    RequestsFromMeaning(spec, 0);
    forall reqs | AsksAll(spec, reqs) ensures BuildRequests(spec) == Ok(reqs) {
      AskedAreBuilt(spec, reqs);
    }
  }

  lemma AskedAreBuilt(spec: Spec, reqs: seq<SecretRequest>)
    requires AsksAll(spec, reqs)
    ensures BuildRequests(spec) == Ok(reqs)
  {
    hide Asks, IsNameless;
    RequestsFromMeaning(spec, 0);
    NamedWhenAsked(spec, reqs);
    assert BuildRequests(spec).Ok?;
    var rs := BuildRequests(spec).value;
    forall i | 0 <= i < |reqs| ensures rs[i] == reqs[i] {
      AsksIsUnique(spec, spec.data[i], reqs[i], rs[i]);
    }
    assert rs == reqs;
  }

  // ----- the data of the Secret -----

  /** Entries and values are paired in order; of equal keys the later pair stays. */
  function SecretData(data: seq<Entry>, values: seq<string>): map<string, string> {
    if data == [] || values == [] then map[]
    else if |data| > |values| then SecretData(data[..|values|], values)
    else if |values| > |data| then SecretData(data, values[..|data|])
    else
      var n := |data| - 1;
      SecretData(data[..n], values[..n])[data[n].key := values[n]]
  }

  /** Entry `i` is the last with its key. */
  predicate IsLast(data: seq<Entry>, i: nat) {
    i < |data| && forall j :: i < j < |data| ==> data[j].key != data[i].key
  }

  predicate HasKey(data: seq<Entry>, k: string) {
    exists i :: 0 <= i < |data| && data[i].key == k
  }

  lemma HasKeyGrows(data: seq<Entry>, k: string)
    requires data != []
    ensures HasKey(data, k) <==> HasKey(data[..|data| - 1], k) || k == data[|data| - 1].key
  {
    var front := data[..|data| - 1];
    if HasKey(front, k) {
      var i :| 0 <= i < |front| && front[i].key == k;
      assert data[i].key == k;
    }
    if HasKey(data, k) && k != data[|data| - 1].key {
      var i :| 0 <= i < |data| && data[i].key == k;
      assert front[i].key == k;
    }
  }

  /** Exactly the keys of the entries. */
  lemma {:induction false} SecretDataKeys(data: seq<Entry>, values: seq<string>, k: string)
    requires |values| == |data|
    ensures k in SecretData(data, values) <==> HasKey(data, k)
    decreases |data|
  {
    if data != [] {
      var n := |data| - 1;
      SecretDataKeys(data[..n], values[..n], k);
      HasKeyGrows(data, k);
    }
  }

  /** Each key has the value paired with its last entry. */
  lemma {:induction false} SecretDataValue(data: seq<Entry>, values: seq<string>, i: nat)
    requires |values| == |data| && IsLast(data, i)
    ensures data[i].key in SecretData(data, values) && SecretData(data, values)[data[i].key] == values[i]
    decreases |data|
  {
    var n := |data| - 1;
    if i < n {
      assert data[n].key != data[i].key;
      SecretDataValue(data[..n], values[..n], i);
    }
  }

  /** From one cache, every key of the entries and no other, each with a secret its last entry asks for. */
  ghost predicate Delivers(env: Env, cache: VaultCache, spec: Spec, data: map<string, string>)
    requires WellIndexed(cache)
  {
    && (forall k: string :: k in data <==> HasKey(spec.data, k))
    && (forall i: nat :: IsLast(spec.data, i) ==>
          spec.data[i].key in data && EntryServed(env, cache, spec, spec.data[i], data[spec.data[i].key]))
  }

  ghost predicate EntryServed(env: Env, cache: VaultCache, spec: Spec, e: Entry, v: string)
    requires WellIndexed(cache)
  {
    exists req :: Asks(spec, e, req) && Yields(env, cache, req, v)
  }

  /** The data built from what one cache answered to the requests delivers every entry from that cache. */
  lemma FetchedIsDelivered(env: Env, cache: VaultCache, spec: Spec, reqs: seq<SecretRequest>, values: seq<string>)
    requires BuildRequests(spec) == Ok(reqs) && WellIndexed(cache) && Answers(env, cache, reqs, Ok(values))
    ensures |values| == |spec.data| && Delivers(env, cache, spec, SecretData(spec.data, values))
  {
    hide Asks, Yields, BuildRequests, SecretData, WellIndexed;
    RequestsExactly(spec);
    assert AsksAll(spec, reqs);
    forall k: string ensures k in SecretData(spec.data, values) <==> HasKey(spec.data, k) {
      SecretDataKeys(spec.data, values, k);
    }
    forall i: nat | IsLast(spec.data, i)
      ensures spec.data[i].key in SecretData(spec.data, values)
      ensures EntryServed(env, cache, spec, spec.data[i], SecretData(spec.data, values)[spec.data[i].key])
    {
      SecretDataValue(spec.data, values, i);
      assert Asks(spec, spec.data[i], reqs[i]) && Yields(env, cache, reqs[i], values[i]);
    }
  }

  // ----- one reconcile -----

  /** A write to the cluster takes effect and is confirmed, takes effect but reports an error, or is refused. */
  datatype Answer = Confirmed | Lost | Refused

  predicate Effective(a: Answer) {
    a != Refused
  }

  /** How the cluster answers the calls of one reconcile. */
  datatype ApiAnswers = ApiAnswers(getWorks: bool, secret: Answer, status: Answer)

  datatype Action = Requeue(secs: nat) | ApiError | Panicked

  /** The resource as the reconcile was given it. */
  datatype Snapshot = Snapshot(spec: Spec, generation: int, status: Option<CrStatus>)

  /** A body submitted for the managed Secret: created if there was none, else applied over the old one. */
  datatype SecretWrite = SecretWrite(create: bool, generation: int, data: map<string, string>)

  datatype ClusterState = ClusterState(resource: Json, spec: Spec, generation: int, secretExists: bool,
                                       writes: seq<SecretWrite>)

  /** What one reconcile is given besides the cluster. */
  datatype Turn = Turn(vws: Snapshot, now: string, fetched: FetchResult, api: ApiAnswers)

  /** The outcome before any write: the failure to report and when to come back, or the values to store. */
  datatype Decision = Halt | Report(f: Failure, secs: nat) | Store(values: seq<string>, secs: nat)

  function Decide(spec: Spec, fetched: FetchResult): Decision {
    match ParseSyncInterval(spec.syncInterval)
    case IntervalPanics => Halt
    case Invalid(f) => Report(f, DEFAULT_SYNC_INTERVAL)
    case Every(secs) =>
      match BuildRequests(spec)
      case Err(f) => Report(f, secs)
      case Ok(_) => match fetched
        case Err(e) => Report(FetchFailed(e), secs)
        case Ok(values) => Store(values, secs)
  }

  function WithStatus(c: ClusterState, s: CrStatus, a: Answer): ClusterState {
    if Effective(a) then c.(resource := MergePatch(c.resource, StatusPatch(s))) else c
  }

  function WithSecret(c: ClusterState, t: Turn, values: seq<string>): ClusterState {
    if t.api.getWorks && Effective(t.api.secret) then
      c.(secretExists := true, writes := c.writes + [SecretWrite(!c.secretExists, t.vws.generation,
          SecretData(t.vws.spec.data, values))])
    else c
  }

  predicate SecretConfirmed(t: Turn) {
    t.api.getWorks && t.api.secret == Confirmed
  }

  function Reconciled(c: ClusterState, t: Turn, say: Failure -> string): ClusterState {
    match Decide(t.vws.spec, t.fetched)
    case Halt => c
    case Report(f, _) => WithStatus(c, FailedStatus(t.vws.status, t.vws.generation, t.now, say(f)), t.api.status)
    case Store(values, _) =>
      if SecretConfirmed(t) then WithStatus(WithSecret(c, t, values), ReadyStatus(t.vws.status, t.vws.generation,
          t.now), t.api.status)
      else WithSecret(c, t, values)
  }

  function ActionOf(t: Turn): Action {
    match Decide(t.vws.spec, t.fetched)
    case Halt => Panicked
    case Report(_, secs) => if t.api.status == Confirmed then Requeue(secs) else ApiError
    case Store(_, secs) => if SecretConfirmed(t) && t.api.status == Confirmed then Requeue(secs) else ApiError
  }

  class Cluster {
    var resource: Json
    var spec: Spec
    var generation: int
    var secretExists: bool
    var writes: seq<SecretWrite>

    function State(): ClusterState
      reads this
    {
      ClusterState(resource, spec, generation, secretExists, writes)
    }

    constructor (resource: Json, spec: Spec, generation: int, secretExists: bool)
      ensures State() == ClusterState(resource, spec, generation, secretExists, [])
    {
      this.resource, this.spec, this.generation := resource, spec, generation;
      this.secretExists, this.writes := secretExists, [];
    }

    method PatchStatus(s: CrStatus, a: Answer) returns (ok: bool)
      modifies this`resource
      ensures State() == WithStatus(old(State()), s, a) && (ok <==> a == Confirmed)
    {
      if a != Refused {
        resource := MergePatch(resource, StatusPatch(s));
      }
      ok := a == Confirmed;
    }

    method SetReadyStatus(t: Turn) returns (ok: bool)
      modifies this`resource
      ensures State() == WithStatus(old(State()), ReadyStatus(t.vws.status, t.vws.generation, t.now), t.api.status)
      ensures ok <==> t.api.status == Confirmed
    {
      var s := BuildReadyStatus(t.vws.status, t.vws.generation, t.now);
      ok := PatchStatus(s, t.api.status);
    }

    method SetFailedStatus(t: Turn, msg: string) returns (ok: bool)
      modifies this`resource
      ensures State() == WithStatus(old(State()), FailedStatus(t.vws.status, t.vws.generation, t.now, msg),
              t.api.status)
      ensures ok <==> t.api.status == Confirmed
    {
      var s := BuildFailedStatus(t.vws.status, t.vws.generation, t.now, msg);
      ok := PatchStatus(s, t.api.status);
    }

    method WriteSecret(t: Turn, values: seq<string>) returns (ok: bool)
      modifies this`writes, this`secretExists
      ensures State() == WithSecret(old(State()), t, values) && (ok <==> SecretConfirmed(t))
    {
      if !t.api.getWorks {
        return false;
      }
      if t.api.secret != Refused {
        writes := writes + [SecretWrite(!secretExists, t.vws.generation, SecretData(t.vws.spec.data, values))];
        secretExists := true;
      }
      ok := t.api.secret == Confirmed;
    }

    method ReconcileApply(t: Turn, say: Failure -> string) returns (r: Action)
      modifies this
      ensures State() == Reconciled(old(State()), t, say) && r == ActionOf(t)
    {
      hide ReadyStatus, FailedStatus, MergePatch, StatusPatch, SecretData, ParseSyncInterval, BuildRequests;
      var interval := ParseSyncInterval(t.vws.spec.syncInterval);
      if interval.IntervalPanics? {
        return Panicked;
      }
      if interval.Invalid? {
        var ok := SetFailedStatus(t, say(interval.f));
        return if ok then Requeue(DEFAULT_SYNC_INTERVAL) else ApiError;
      }
      var requests := BuildRequests(t.vws.spec);
      if requests.Err? {
        var ok := SetFailedStatus(t, say(requests.error));
        return if ok then Requeue(interval.secs) else ApiError;
      }
      if t.fetched.Err? {
        var ok := SetFailedStatus(t, say(FetchFailed(t.fetched.error)));
        return if ok then Requeue(interval.secs) else ApiError;
      }
      var written := WriteSecret(t, t.fetched.value);
      if !written {
        return ApiError;
      }
      var ok := SetReadyStatus(t);
      r := if ok then Requeue(interval.secs) else ApiError;
    }
  }

  // ----- what one reconcile guarantees -----

  /** Nothing stands in the way of writing the Secret, stated of the inputs. */
  ghost predicate Storable(t: Turn) {
    && (exists secs: nat :: ParseSyncInterval(t.vws.spec.syncInterval) == Every(secs))
    && (forall i :: 0 <= i < |t.vws.spec.data| ==> !IsNameless(t.vws.spec.data[i]))
    && t.fetched.Ok?
  }

  lemma StorableExactly(t: Turn)
    ensures Storable(t) <==> Decide(t.vws.spec, t.fetched).Store?
    ensures Storable(t) ==> Decide(t.vws.spec, t.fetched).values == t.fetched.value
  {
    hide ParseSyncInterval, IsNameless, BuildRequests, AsksAll;
    var spec := t.vws.spec;
    RequestsExactly(spec);
    if BuildRequests(spec).Ok? {
      var reqs := BuildRequests(spec).value;
      assert AsksAll(spec, reqs);
      NamedWhenAsked(spec, reqs);
    }
  }

  lemma NamedWhenAsked(spec: Spec, reqs: seq<SecretRequest>)
    requires AsksAll(spec, reqs)
    ensures forall i :: 0 <= i < |spec.data| ==> !IsNameless(spec.data[i])
  {
    forall i | 0 <= i < |spec.data| ensures !IsNameless(spec.data[i]) {
      AsksIsUnique(spec, spec.data[i], reqs[i], reqs[i]);
    }
  }

  /** Exactly the keys of the entries, each with the value fetched for the last entry that has it. */
  ghost predicate Pairs(data: seq<Entry>, values: seq<string>, m: map<string, string>)
    requires |values| == |data|
  {
    && (forall k: string :: k in m <==> HasKey(data, k))
    && (forall i: nat :: IsLast(data, i) ==> data[i].key in m && m[data[i].key] == values[i])
  }

  lemma SecretDataPairs(data: seq<Entry>, values: seq<string>)
    requires |values| == |data|
    ensures Pairs(data, values, SecretData(data, values))
  {
    hide SecretData, HasKey;
    forall k: string ensures k in SecretData(data, values) <==> HasKey(data, k) {
      SecretDataKeys(data, values, k);
    }
    forall i: nat | IsLast(data, i)
      ensures i < |data| && data[i].key in SecretData(data, values)
              && SecretData(data, values)[data[i].key] == values[i]
    {
      SecretDataValue(data, values, i);
    }
  }

  /** The Secret is submitted in this turn. */
  ghost predicate Submits(t: Turn) {
    Storable(t) && t.api.getWorks && t.api.secret != Refused
  }

  /**
   All or nothing: the Secret is submitted exactly when the interval is valid, every entry is named, the whole
   fetch succeeded and the cluster takes it; then once, with exactly the fetched values; else it is left alone.
   */
  lemma WrittenAllOrNothing(c: ClusterState, t: Turn, say: Failure -> string)
    ensures var after := Reconciled(c, t, say);
            if Submits(t) then
              && |after.writes| == |c.writes| + 1 && after.writes[..|c.writes|] == c.writes
              && after.writes[|c.writes|].create == !c.secretExists && after.secretExists
              && after.writes[|c.writes|].generation == t.vws.generation
              && after.writes[|c.writes|].data == SecretData(t.vws.spec.data, t.fetched.value)
              && (|t.fetched.value| == |t.vws.spec.data| ==>
                    Pairs(t.vws.spec.data, t.fetched.value, after.writes[|c.writes|].data))
            else after.writes == c.writes && after.secretExists == c.secretExists
    ensures Reconciled(c, t, say).spec == c.spec && Reconciled(c, t, say).generation == c.generation
  {
    hide Storable, Pairs, SecretData, ReadyStatus, FailedStatus, MergePatch, StatusPatch, BuildRequests,
         ParseSyncInterval;
    StorableExactly(t);
    if Storable(t) && |t.fetched.value| == |t.vws.spec.data| {
      SecretDataPairs(t.vws.spec.data, t.fetched.value);
    }
  }

  /** Where a requeue is asked for it is never immediate; errors come back after the default interval. */
  function NextDelay(a: Action): (r: Option<nat>)
    ensures r.None? <==> a.Panicked?
  {
    match a
    case Requeue(secs) => Some(secs)
    case ApiError => Some(DEFAULT_SYNC_INTERVAL)
    case Panicked => None
  }

  /**
   The resource is looked at again, after a positive delay, exactly unless its interval is a text that makes the
   parser panic: terms, then a number, then a character outside ASCII that starts no unit.
   */
  lemma ComesBack(t: Turn)
    ensures NextDelay(ActionOf(t)).Some? ==> NextDelay(ActionOf(t)).value > 0
    ensures NextDelay(ActionOf(t)).None? <==>
            exists ts, digits, rest :: PanicsAt(t.vws.spec.syncInterval, ts, digits, rest)
    ensures ActionOf(t).Requeue? && ActionOf(t).secs != DEFAULT_SYNC_INTERVAL ==>
              exists ts :: Denotes(t.vws.spec.syncInterval, ts, ActionOf(t).secs)
  {
    hide DurationOf, Denotes, BuildRequests, PanicsAt;
    var s := t.vws.spec.syncInterval;
    PanicsExactly(s);
    if s == "" {
      EmptyAnswered();
    }
    if ParseSyncInterval(s).Every? {
      IntervalExactly(s, ParseSyncInterval(s).secs);
    }
  }

  lemma EmptyAnswered()
    ensures DurationOf("").Done?
  {
    assert IsAscii("");
    AsciiAnswered("");
  }
}
