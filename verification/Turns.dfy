/**
 Every outcome of one reconcile, from the spec, the fetch and the answers of the cluster alone
 (src/controller.rs:78-186).
 */
module Turns {
  import opened Results
  import opened Durations
  import opened DurationFaults
  import opened Sessions
  import opened Status
  import opened Controller

  // ----- the interval -----

  /** The interval text stands for `secs` seconds: five minutes if empty, else a positive duration. */
  ghost predicate Accepts(s: string, secs: nat) {
    (s == "" && secs == 300) || (secs > 0 && exists ts :: Denotes(s, ts, secs))
  }

  ghost predicate Breaks(s: string) {
    exists ts, digits, rest :: PanicsAt(s, ts, digits, rest)
  }

  ghost predicate Faulty(s: string, e: DurationError) {
    && s != ""
    && if Trim(s) == "" then e == EmptyDuration else exists ts, tail :: FailsAt(s, ts, tail, e)
  }

  /** A text is accepted for one interval, breaks the parser, is faulty in one way, or stands for nothing. */
  lemma IntervalCases(s: string)
    ensures forall secs :: ParseSyncInterval(s) == Every(secs) <==> Accepts(s, secs)
    ensures ParseSyncInterval(s) == IntervalPanics <==> Breaks(s)
    ensures ParseSyncInterval(s) == Invalid(ZeroInterval) <==> s != "" && exists ts :: Denotes(s, ts, 0)
    ensures forall e :: ParseSyncInterval(s) == Invalid(BadInterval(s, e)) <==> Faulty(s, e)
    ensures ParseSyncInterval(s).Invalid? ==>
              ParseSyncInterval(s).f == ZeroInterval
              || (ParseSyncInterval(s).f.BadInterval? && ParseSyncInterval(s).f.text == s)
  {
    hide DurationOf, Denotes, PanicsAt, FailsAt, Trim;
    forall secs ensures ParseSyncInterval(s) == Every(secs) <==> Accepts(s, secs) {
      IntervalExactly(s, secs);
    }
    PanicsExactly(s);
    EmptyAnswered();
    AcceptedExactly(s, 0);
    forall e ensures ParseSyncInterval(s) == Invalid(BadInterval(s, e)) <==> Faulty(s, e) {
      ErrorsExactly(s, e);
    }
  }

  // ----- what is reported -----

  ghost predicate AllNamed(spec: Spec) {
    forall i :: 0 <= i < |spec.data| ==> !IsNameless(spec.data[i])
  }

  /** The failure a reconcile reports: of the interval; else the first entry without a name; else of the fetch. */
  ghost predicate Reports(spec: Spec, fetched: FetchResult, f: Failure) {
    match f
    case BadInterval(text, e) => text == spec.syncInterval && Faulty(spec.syncInterval, e)
    case ZeroInterval => spec.syncInterval != "" && exists ts :: Denotes(spec.syncInterval, ts, 0)
    case Nameless(i, key) =>
      (exists secs :: Accepts(spec.syncInterval, secs)) && FirstNameless(spec, i) && key == spec.data[i].key
    case FetchFailed(e) => (exists secs :: Accepts(spec.syncInterval, secs)) && AllNamed(spec) && fetched == Err(e)
  }

  /** All is well. */
  ghost predicate Resolves(spec: Spec, fetched: FetchResult) {
    (exists secs :: Accepts(spec.syncInterval, secs)) && AllNamed(spec) && fetched.Ok?
  }

  lemma NamedExactly(spec: Spec)
    ensures BuildRequests(spec).Ok? <==> AllNamed(spec)
    ensures forall i: nat, key :: BuildRequests(spec) == Err(Nameless(i, key)) <==>
            FirstNameless(spec, i) && key == spec.data[i].key
    ensures BuildRequests(spec).Err? ==> BuildRequests(spec).error.Nameless?
  {
    hide BuildRequests, IsNameless, AsksAll;
    RequestsExactly(spec);
    if BuildRequests(spec).Ok? {
      assert AsksAll(spec, BuildRequests(spec).value);
      NamedWhenAsked(spec, BuildRequests(spec).value);
    }
    forall i: nat, key
      ensures BuildRequests(spec) == Err(Nameless(i, key)) <==> FirstNameless(spec, i) && key == spec.data[i].key
    {
      if i < |spec.data| {
        assert BuildRequests(spec) == Err(Nameless(i, spec.data[i].key)) <==> FirstNameless(spec, i);
      }
    }
  }

  /** Before any write a reconcile breaks, reports one failure, or goes on to store; each exactly when it should. */
  lemma DecisionExactly(spec: Spec, fetched: FetchResult)
    ensures Decide(spec, fetched).Halt? <==> Breaks(spec.syncInterval)
    ensures forall f :: Decide(spec, fetched).Report? && Decide(spec, fetched).f == f <==> Reports(spec, fetched, f)
    ensures Decide(spec, fetched).Store? <==> Resolves(spec, fetched)
    ensures Decide(spec, fetched).Store? ==> fetched == Ok(Decide(spec, fetched).values)
    ensures forall secs :: Accepts(spec.syncInterval, secs) ==>
            !Decide(spec, fetched).Halt? && Decide(spec, fetched).secs == secs
    ensures (forall secs :: !Accepts(spec.syncInterval, secs)) && Decide(spec, fetched).Report? ==>
            Decide(spec, fetched).secs == 300
  {
    hide ParseSyncInterval, BuildRequests, Accepts, Breaks, Faulty, Denotes, FirstNameless, AllNamed;
    IntervalCases(spec.syncInterval);
    NamedExactly(spec);
  }

  // ----- what is done -----

  /** The writes due in this turn are all confirmed. */
  ghost predicate AllConfirmed(t: Turn) {
    && t.api.status == Confirmed
    && (Resolves(t.vws.spec, t.fetched) ==> t.api.getWorks && t.api.secret == Confirmed)
  }

  /**
   When the resource is looked at again, exactly: after its own interval if that is good, else after five minutes,
   provided the writes due are confirmed; after an API error otherwise; not at all if the parser breaks.
   */
  lemma ActionExactly(t: Turn)
    ensures Breaks(t.vws.spec.syncInterval) ==> ActionOf(t) == Panicked
    ensures forall secs :: Accepts(t.vws.spec.syncInterval, secs) ==>
              ActionOf(t) == if AllConfirmed(t) then Requeue(secs) else ApiError
    ensures !Breaks(t.vws.spec.syncInterval) && (forall secs :: !Accepts(t.vws.spec.syncInterval, secs)) ==>
              ActionOf(t) == if t.api.status == Confirmed then Requeue(300) else ApiError
  {
    hide Decide, Breaks, Accepts, Resolves, Reports;
    DecisionExactly(t.vws.spec, t.fetched);
    NotAcceptedNotResolved(t.vws.spec, t.fetched);
  }

  lemma NotAcceptedNotResolved(spec: Spec, fetched: FetchResult)
    ensures (forall secs :: !Accepts(spec.syncInterval, secs)) ==> !Resolves(spec, fetched)
  {
  }

  /**
   What becomes of the resource, exactly: the failure reported, or ready once the Secret is confirmed, or
   untouched.
   */
  lemma ResourceExactly(c: ClusterState, t: Turn, say: Failure -> string)
    ensures var after, v := Reconciled(c, t, say).resource, t.vws;
            && (forall f :: Reports(v.spec, t.fetched, f) ==>
                  after == if t.api.status == Refused then c.resource
                           else var s := FailedStatus(v.status, v.generation, t.now, say(f));
                                MergePatch(c.resource, StatusPatch(s)))
            && (Resolves(v.spec, t.fetched) ==>
                  after == if !t.api.getWorks || t.api.secret != Confirmed || t.api.status == Refused then c.resource
                           else MergePatch(c.resource, StatusPatch(ReadyStatus(v.status, v.generation, t.now))))
            && (Breaks(v.spec.syncInterval) ==> after == c.resource)
  {
    hide Decide, Breaks, Resolves, Reports, MergePatch, StatusPatch, ReadyStatus, FailedStatus, SecretData;
    DecisionExactly(t.vws.spec, t.fetched);
  }
}
