/**
 The status of a VaultwardenSecret (src/crd.rs, src/controller.rs): how it is written to JSON, what the
 JSON merge patch (section 2 of RFC 7396) built from it does on the server, and what every run of status
 updates keeps even when each one starts from a stale read.
 */
module Status {
  import opened Results

  datatype Json =
    | Null
    | Bool(b: bool)
    | Num(n: int)
    | Str(s: string)
    | Arr(items: seq<Json>)
    | Obj(fields: map<string, Json>)

  /** The merge of section 2 of RFC 7396: objects merge key by key, null deletes, anything else replaces. */
  function MergePatch(target: Json, patch: Json): Json
    decreases patch
  {
    if !patch.Obj? then patch else
    var base := if target.Obj? then target.fields else map[];
    Obj(map k | k in base.Keys + patch.fields.Keys && !(k in patch.fields && patch.fields[k] == Null) ::
          if k in patch.fields then MergePatch(if k in base then base[k] else Null, patch.fields[k]) else base[k])
  }

  // ----- the status and its JSON form -----

  datatype Condition = Condition(type_: string, status: string, reason: string, message: string,
                                 observedGeneration: Option<int>, lastTransitionTime: string)

  datatype CrStatus = CrStatus(ready: bool, lastSyncTime: Option<string>, lastSyncError: string,
                               observedGeneration: Option<int>, conditions: seq<Condition>)

  const NO_STATUS := CrStatus(false, None, "", None, [])

  function OptStr(m: map<string, Json>, k: string, v: Option<string>): map<string, Json> {
    if v.Some? then m[k := Str(v.value)] else m
  }

  function OptNum(m: map<string, Json>, k: string, v: Option<int>): map<string, Json> {
    if v.Some? then m[k := Num(v.value)] else m
  }

  function EncodeCondition(c: Condition): Json {
    Obj(OptNum(map["type" := Str(c.type_), "status" := Str(c.status), "reason" := Str(c.reason),
                   "message" := Str(c.message),
                   "lastTransitionTime" := Str(c.lastTransitionTime)],
               "observedGeneration", c.observedGeneration))
  }

  function EncodeConditions(cs: seq<Condition>): seq<Json> {
    seq(|cs|, i requires 0 <= i < |cs| => EncodeCondition(cs[i]))
  }

  /** Unset times and generations, an empty error and an empty condition list are left out. */
  function EncodeStatus(s: CrStatus): map<string, Json> {
    var m := OptNum(OptStr(map["ready" := Bool(s.ready)], "lastSyncTime", s.lastSyncTime),
                    "observedGeneration", s.observedGeneration);
    var m' := if s.lastSyncError != "" then m["lastSyncError" := Str(s.lastSyncError)] else m;
    if s.conditions != [] then m'["conditions" := Arr(EncodeConditions(s.conditions))] else m'
  }

  function GetStr(m: map<string, Json>, k: string): Option<string> {
    if k in m && m[k].Str? then Some(m[k].s) else None
  }

  function GetNum(m: map<string, Json>, k: string): Option<int> {
    if k in m && m[k].Num? then Some(m[k].n) else None
  }

  predicate ConditionTyped(j: Json) {
    && j.Obj?
    && (forall k :: k in {"type", "status", "reason", "message", "lastTransitionTime"} ==>
          k in j.fields && j.fields[k].Str?)
    && ("observedGeneration" in j.fields ==> j.fields["observedGeneration"].Num?)
  }

  function DecodeCondition(j: Json): Condition
    requires ConditionTyped(j)
  {
    Condition(j.fields["type"].s, j.fields["status"].s, j.fields["reason"].s, j.fields["message"].s,
              GetNum(j.fields, "observedGeneration"), j.fields["lastTransitionTime"].s)
  }

  /** The status object as the custom resource schema admits it. */
  predicate StatusTyped(m: map<string, Json>) {
    && ("ready" in m ==> m["ready"].Bool?)
    && ("lastSyncTime" in m ==> m["lastSyncTime"].Str?)
    && ("lastSyncError" in m ==> m["lastSyncError"].Str?)
    && ("observedGeneration" in m ==> m["observedGeneration"].Num?)
    && ("conditions" in m ==>
          && m["conditions"].Arr?
          && forall i :: 0 <= i < |m["conditions"].items| ==> ConditionTyped(m["conditions"].items[i]))
  }

  function DecodeConditions(js: seq<Json>): seq<Condition>
    requires forall i :: 0 <= i < |js| ==> ConditionTyped(js[i])
  {
    seq(|js|, i requires 0 <= i < |js| => DecodeCondition(js[i]))
  }

  function DecodeStatus(m: map<string, Json>): CrStatus
    requires StatusTyped(m)
  {
    CrStatus("ready" in m && m["ready"].b,
             GetStr(m, "lastSyncTime"),
             if "lastSyncError" in m then m["lastSyncError"].s else "",
             GetNum(m, "observedGeneration"),
             if "conditions" in m then DecodeConditions(m["conditions"].items) else [])
  }

  lemma ConditionsRoundTrip(cs: seq<Condition>)
    ensures |EncodeConditions(cs)| == |cs| && forall i :: 0 <= i < |cs| ==> ConditionTyped(EncodeConditions(cs)[i])
    ensures DecodeConditions(EncodeConditions(cs)) == cs
  {
    forall i | 0 <= i < |cs|
      ensures ConditionTyped(EncodeConditions(cs)[i]) && DecodeCondition(EncodeConditions(cs)[i]) == cs[i]
    {
      ConditionRoundTrip(cs[i]);
    }
  }

  lemma ConditionRoundTrip(c: Condition)
    ensures ConditionTyped(EncodeCondition(c)) && DecodeCondition(EncodeCondition(c)) == c
  {
  }

  /** Writing a status and reading it back returns it. */
  lemma StatusRoundTrip(s: CrStatus)
    ensures StatusTyped(EncodeStatus(s)) && DecodeStatus(EncodeStatus(s)) == s
  {
    ConditionsRoundTrip(s.conditions);
  }

  // ----- the patch -----

  /** The patch sent: an empty error is an explicit null. */
  function StatusPatch(s: CrStatus): Json {
    var m := EncodeStatus(s);
    Obj(map["status" := Obj(if s.lastSyncError == "" then m["lastSyncError" := Null] else m)])
  }

  /** The patch without the explicit null. */
  function PlainPatch(s: CrStatus): Json {
    Obj(map["status" := Obj(EncodeStatus(s))])
  }

  /** A custom resource whose status, if present, fits the schema. */
  predicate ServerTyped(server: Json) {
    && server.Obj?
    && ("status" in server.fields ==>
          server.fields["status"].Obj? && StatusTyped(server.fields["status"].fields))
  }

  function ReadStatus(server: Json): Option<CrStatus>
    requires ServerTyped(server)
  {
    if "status" in server.fields then Some(DecodeStatus(server.fields["status"].fields)) else None
  }

  function OrElse<T>(a: Option<T>, b: Option<T>): Option<T> {
    if a.Some? then a else b
  }

  function StatusOf(server: Json): CrStatus
    requires ServerTyped(server)
  {
    if ReadStatus(server).Some? then ReadStatus(server).value else NO_STATUS
  }

  lemma MergeFlat(base: map<string, Json>, p: map<string, Json>)
    requires forall k :: k in p ==> !p[k].Obj?
    ensures MergePatch(Obj(base), Obj(p)) == Obj((base + p) - (set k | k in p && p[k] == Null))
    ensures MergePatch(Null, Obj(p)) == Obj(p - (set k | k in p && p[k] == Null))
  {
  }

  lemma StatusFieldsFlat(s: CrStatus)
    ensures forall k :: k in EncodeStatus(s) ==> !EncodeStatus(s)[k].Obj? && EncodeStatus(s)[k] != Null
  {
  }

  /** The status object the server has, empty if none. */
  function StatusFields(server: Json): map<string, Json>
    requires ServerTyped(server)
  {
    if "status" in server.fields then server.fields["status"].fields else map[]
  }

  /** A patch of the status alone merges field by field into the status and leaves the rest. */
  lemma MergeIntoStatus(server: Json, p: map<string, Json>)
    requires ServerTyped(server)
    requires forall k :: k in p ==> !p[k].Obj?
    ensures var after := MergePatch(server, Obj(map["status" := Obj(p)]));
            && after.Obj? && "status" in after.fields
            && after.fields["status"] == Obj((StatusFields(server) + p) - (set k | k in p && p[k] == Null))
            && after.fields - {"status"} == server.fields - {"status"}
  {
    hide StatusTyped;
    MergeFlat(StatusFields(server), p);
    assert map[] + p == p;
  }

  lemma PatchFields(server: Json, s: CrStatus)
    requires ServerTyped(server)
    ensures var after := MergePatch(server, StatusPatch(s));
            && after.Obj? && "status" in after.fields && after.fields["status"].Obj?
            && after.fields["status"].fields
               == (StatusFields(server) + EncodeStatus(s)) - (if s.lastSyncError == "" then {"lastSyncError"} else {})
            && after.fields - {"status"} == server.fields - {"status"}
  {
    hide EncodeStatus, ServerTyped, MergePatch, StatusFields;
    StatusFieldsFlat(s);
    var base, m := StatusFields(server), EncodeStatus(s);
    var p := if s.lastSyncError == "" then m["lastSyncError" := Null] else m;
    MergeIntoStatus(server, p);
    assert (set k | k in p && p[k] == Null) == if s.lastSyncError == "" then {"lastSyncError"} else {};
    assert (base + p) - (if s.lastSyncError == "" then {"lastSyncError"} else {})
        == (base + m) - (if s.lastSyncError == "" then {"lastSyncError"} else {});
  }

  lemma PlainPatchFields(server: Json, s: CrStatus)
    requires ServerTyped(server)
    ensures var plain := MergePatch(server, PlainPatch(s));
            && plain.Obj? && "status" in plain.fields && plain.fields["status"].Obj?
            && plain.fields["status"].fields == StatusFields(server) + EncodeStatus(s)
  {
    hide EncodeStatus, ServerTyped, MergePatch, StatusFields;
    StatusFieldsFlat(s);
    var m := EncodeStatus(s);
    MergeIntoStatus(server, m);
    assert (set k | k in m && m[k] == Null) == {};
    assert (StatusFields(server) + m) - {} == StatusFields(server) + m;
  }

  /**
   Applying the patch: readiness and error become exactly the new ones; time and generation become the new
   ones or stay; conditions become the new ones unless the new list is empty; all else is untouched.
   */
  lemma PatchMeaning(server: Json, s: CrStatus)
    requires ServerTyped(server)
    ensures var after, prior := MergePatch(server, StatusPatch(s)), StatusOf(server);
            && ServerTyped(after)
            && ReadStatus(after) == Some(CrStatus(s.ready, OrElse(s.lastSyncTime, prior.lastSyncTime), s.lastSyncError,
                                                  OrElse(s.observedGeneration, prior.observedGeneration),
                                                  if s.conditions != [] then s.conditions else prior.conditions))
            && after.fields - {"status"} == server.fields - {"status"}
  {
    PatchFields(server, s);
    hide MergePatch, EncodeStatus, ConditionTyped, EncodeConditions, DecodeConditions;
    MergedStatus(StatusFields(server), s, s.lastSyncError == "");
  }

  /** What the written status holds under each key. */
  lemma Encoded(s: CrStatus)
    ensures var m := EncodeStatus(s);
            && "ready" in m && m["ready"] == Bool(s.ready)
            && ("lastSyncTime" in m <==> s.lastSyncTime.Some?)
            && (s.lastSyncTime.Some? ==> m["lastSyncTime"] == Str(s.lastSyncTime.value))
            && ("observedGeneration" in m <==> s.observedGeneration.Some?)
            && (s.observedGeneration.Some? ==> m["observedGeneration"] == Num(s.observedGeneration.value))
            && ("lastSyncError" in m <==> s.lastSyncError != "")
            && (s.lastSyncError != "" ==> m["lastSyncError"] == Str(s.lastSyncError))
            && ("conditions" in m <==> s.conditions != [])
            && (s.conditions != [] ==> m["conditions"] == Arr(EncodeConditions(s.conditions)))
  {
    hide EncodeConditions;
  }

  /** Reading `base` overlaid with the written status, with or without the error key removed. */
  lemma MergedStatus(base: map<string, Json>, s: CrStatus, drop: bool)
    requires StatusTyped(base)
    ensures var m := (base + EncodeStatus(s)) - (if drop then {"lastSyncError"} else {});
            var prior := DecodeStatus(base);
            && StatusTyped(m)
            && DecodeStatus(m) == CrStatus(s.ready, OrElse(s.lastSyncTime, prior.lastSyncTime),
                                           if drop then ""
                                           else if s.lastSyncError != "" then s.lastSyncError
                                           else prior.lastSyncError,
                                           OrElse(s.observedGeneration, prior.observedGeneration),
                                           if s.conditions != [] then s.conditions else prior.conditions)
  {
    hide EncodeStatus, ConditionTyped, EncodeConditions, DecodeConditions;
    ConditionsRoundTrip(s.conditions);
    Encoded(s);
    var m, prior := (base + EncodeStatus(s)) - (if drop then {"lastSyncError"} else {}), DecodeStatus(base);
    assert DecodeStatus(m).conditions == if s.conditions != [] then s.conditions else prior.conditions;
  }

  /** Without the explicit null an earlier error would survive a success. */
  lemma PlainPatchKeepsError(server: Json, s: CrStatus)
    requires ServerTyped(server) && s.lastSyncError == ""
    ensures ServerTyped(MergePatch(server, PlainPatch(s)))
    ensures StatusOf(MergePatch(server, PlainPatch(s))).lastSyncError == StatusOf(server).lastSyncError
  {
    PlainPatchFields(server, s);
    hide MergePatch, EncodeStatus, ConditionTyped, EncodeConditions, DecodeConditions;
    MergedStatus(StatusFields(server), s, false);
    assert (StatusFields(server) + EncodeStatus(s)) - {} == StatusFields(server) + EncodeStatus(s);
  }

  // ----- the two updates -----

  const READY := "Ready"
  const SYNC_FAILED := "SyncFailed"
  const SYNCED := "Vault secrets synced successfully"

  function Position(cs: seq<Condition>, type_: string): (r: Option<nat>)
    ensures r.Some? ==> r.value < |cs| && cs[r.value].type_ == type_
    ensures forall j :: 0 <= j < (if r.Some? then r.value else |cs|) ==> cs[j].type_ != type_
  {
    if cs == [] then None
    else if cs[0].type_ == type_ then Some(0)
    else match Position(cs[1..], type_)
      case Some(i) => Some(i + 1)
      case None => None
  }

  function Upserted(cs: seq<Condition>, c: Condition): seq<Condition> {
    match Position(cs, c.type_)
    case Some(i) => cs[i := c]
    case None => cs + [c]
  }

  class ConditionList {
    var items: seq<Condition>

    constructor (items: seq<Condition>)
      ensures this.items == items
    {
      this.items := items;
    }

    method Upsert(c: Condition)
      modifies this
      ensures items == Upserted(old(items), c)
    {
      var pos := Position(items, c.type_);
      if pos.Some? {
        items := items[pos.value := c];
      } else {
        items := items + [c];
      }
    }
  }

  function Without(cs: seq<Condition>, type_: string): seq<Condition> {
    if cs == [] then [] else (if cs[0].type_ != type_ then [cs[0]] else []) + Without(cs[1..], type_)
  }

  function ReadyStatus(read: Option<CrStatus>, generation: int, now: string): CrStatus {
    var cs := if read.Some? then read.value.conditions else [];
    CrStatus(true, Some(now), "", Some(generation),
             Upserted(Without(cs, SYNC_FAILED),
                      Condition(READY, "True", "SyncSucceeded", SYNCED, Some(generation), now)))
  }

  function FailedStatus(read: Option<CrStatus>, generation: int, now: string, msg: string): CrStatus {
    var cs := if read.Some? then read.value.conditions else [];
    CrStatus(false, if read.Some? then read.value.lastSyncTime else None, msg, Some(generation),
             Upserted(Upserted(cs, Condition(READY, "False", SYNC_FAILED, msg, Some(generation), now)),
                      Condition(SYNC_FAILED, "True", SYNC_FAILED, msg, Some(generation), now)))
  }

  method BuildReadyStatus(read: Option<CrStatus>, generation: int, now: string) returns (s: CrStatus)
    ensures s == ReadyStatus(read, generation, now)
  {
    var list := new ConditionList(Without(if read.Some? then read.value.conditions else [], SYNC_FAILED));
    list.Upsert(Condition(READY, "True", "SyncSucceeded", SYNCED, Some(generation), now));
    s := CrStatus(true, Some(now), "", Some(generation), list.items);
  }

  method BuildFailedStatus(read: Option<CrStatus>, generation: int, now: string, msg: string) returns (s: CrStatus)
    ensures s == FailedStatus(read, generation, now, msg)
  {
    var list := new ConditionList(if read.Some? then read.value.conditions else []);
    list.Upsert(Condition(READY, "False", SYNC_FAILED, msg, Some(generation), now));
    list.Upsert(Condition(SYNC_FAILED, "True", SYNC_FAILED, msg, Some(generation), now));
    s := CrStatus(false, if read.Some? then read.value.lastSyncTime else None, msg, Some(generation), list.items);
  }

  // ----- what every status keeps -----

  predicate Unique(cs: seq<Condition>) {
    forall i, j :: 0 <= i < j < |cs| ==> cs[i].type_ != cs[j].type_
  }

  /** The one condition of type `type_` has this status and message. */
  predicate Has(cs: seq<Condition>, type_: string, status: string, message: string) {
    exists i :: 0 <= i < |cs| && cs[i].type_ == type_ && cs[i].status == status && cs[i].message == message
  }

  predicate Absent(cs: seq<Condition>, type_: string) {
    forall i :: 0 <= i < |cs| ==> cs[i].type_ != type_
  }

  /**
   Unique types; ready exactly with Ready "True", no SyncFailed and no error; else both conditions carry the
   error.
   */
  predicate Coherent(s: CrStatus) {
    && Unique(s.conditions)
    && if s.ready then
         && Has(s.conditions, READY, "True", SYNCED)
         && Absent(s.conditions, SYNC_FAILED)
         && s.lastSyncError == "" && s.lastSyncTime.Some?
       else
         && Has(s.conditions, READY, "False", s.lastSyncError)
         && Has(s.conditions, SYNC_FAILED, "True", s.lastSyncError)
  }

  lemma UpsertedFacts(cs: seq<Condition>, c: Condition)
    requires Unique(cs)
    ensures Unique(Upserted(cs, c)) && Upserted(cs, c) != []
    ensures Has(Upserted(cs, c), c.type_, c.status, c.message)
    ensures forall t: string, st: string, m: string :: t != c.type_ && Has(cs, t, st, m) ==>
            Has(Upserted(cs, c), t, st, m)
    ensures forall t: string :: t != c.type_ && Absent(cs, t) ==> Absent(Upserted(cs, c), t)
  {
    var r, pos := Upserted(cs, c), Position(cs, c.type_);
    assert r[if pos.Some? then pos.value else |cs|] == c;
    forall t: string, st: string, m: string | t != c.type_ && Has(cs, t, st, m) ensures Has(r, t, st, m) {
      var i :| 0 <= i < |cs| && cs[i].type_ == t && cs[i].status == st && cs[i].message == m;
      assert r[i] == cs[i];
    }
  }

  lemma {:induction false} WithoutFacts(cs: seq<Condition>, type_: string)
    requires Unique(cs)
    ensures Unique(Without(cs, type_)) && Absent(Without(cs, type_), type_)
    ensures forall t: string :: Absent(cs, t) ==> Absent(Without(cs, type_), t)
  {
    if cs != [] {
      WithoutFacts(cs[1..], type_);
      assert Absent(cs[1..], cs[0].type_);
      forall t: string | Absent(cs, t) ensures Absent(Without(cs, type_), t) {
        assert Absent(cs[1..], t);
      }
    }
  }

  /** Either update of a read with unique condition types is coherent. */
  lemma UpdatesAreCoherent(read: Option<CrStatus>, generation: int, now: string, msg: string)
    requires read.Some? ==> Unique(read.value.conditions)
    ensures Coherent(ReadyStatus(read, generation, now)) && ReadyStatus(read, generation, now).conditions != []
    ensures Coherent(FailedStatus(read, generation, now, msg))
            && FailedStatus(read, generation, now, msg).conditions != []
  {
    hide Upserted, Without, Has, Absent, Unique;
    var cs := if read.Some? then read.value.conditions else [];
    assert Unique([]) by { EmptyUnique(); }
    WithoutFacts(cs, SYNC_FAILED);
    UpsertedFacts(Without(cs, SYNC_FAILED), Condition(READY, "True", "SyncSucceeded", SYNCED, Some(generation), now));
    var c := Condition(READY, "False", SYNC_FAILED, msg, Some(generation), now);
    UpsertedFacts(cs, c);
    UpsertedFacts(Upserted(cs, c), Condition(SYNC_FAILED, "True", SYNC_FAILED, msg, Some(generation), now));
  }

  lemma UpsertedMembers(cs: seq<Condition>, c: Condition)
    requires Unique(cs)
    ensures forall d :: d in Upserted(cs, c) <==> d == c || (d in cs && d.type_ != c.type_)
  {
    var r, pos := Upserted(cs, c), Position(cs, c.type_);
    forall d ensures d in r <==> d == c || (d in cs && d.type_ != c.type_) {
      if d == c {
        assert r[if pos.Some? then pos.value else |cs|] == c;
      } else if d in cs && d.type_ != c.type_ {
        var i :| 0 <= i < |cs| && cs[i] == d;
        assert r[i] == d;
      }
    }
  }

  lemma {:induction false} WithoutMembers(cs: seq<Condition>, type_: string)
    ensures forall d :: d in Without(cs, type_) <==> d in cs && d.type_ != type_
  {
    if cs != [] {
      WithoutMembers(cs[1..], type_);
      assert cs == [cs[0]] + cs[1..];
    }
  }

  /** The conditions of the status that was read. */
  function ConditionsOf(read: Option<CrStatus>): seq<Condition> {
    if read.Some? then read.value.conditions else []
  }

  /** A condition that is neither Ready nor SyncFailed, as it was read. */
  predicate IsOther(read: Option<CrStatus>, c: Condition) {
    c in ConditionsOf(read) && c.type_ != "Ready" && c.type_ != "SyncFailed"
  }

  /** The status of a success, in full. */
  lemma ReadyStatusExactly(read: Option<CrStatus>, generation: int, now: string)
    requires Unique(ConditionsOf(read))
    ensures var s := ReadyStatus(read, generation, now);
            && s.ready && s.lastSyncTime == Some(now) && s.lastSyncError == ""
                 && s.observedGeneration == Some(generation)
            && Unique(s.conditions)
            && forall c :: c in s.conditions <==>
                 || c == Condition("Ready", "True", "SyncSucceeded", "Vault secrets synced successfully",
                      Some(generation), now)
                 || IsOther(read, c)
  {
    hide Upserted, Without, Unique;
    var cs := ConditionsOf(read);
    WithoutFacts(cs, SYNC_FAILED);
    WithoutMembers(cs, SYNC_FAILED);
    var c := Condition(READY, "True", "SyncSucceeded", SYNCED, Some(generation), now);
    UpsertedFacts(Without(cs, SYNC_FAILED), c);
    UpsertedMembers(Without(cs, SYNC_FAILED), c);
  }

  /** The status of a failure, in full. */
  lemma FailedStatusExactly(read: Option<CrStatus>, generation: int, now: string, msg: string)
    requires Unique(ConditionsOf(read))
    ensures var s := FailedStatus(read, generation, now, msg);
            && !s.ready && s.lastSyncError == msg && s.observedGeneration == Some(generation)
            && s.lastSyncTime == (if read.Some? then read.value.lastSyncTime else None)
            && Unique(s.conditions)
            && forall c :: c in s.conditions <==>
                 || c == Condition("Ready", "False", "SyncFailed", msg, Some(generation), now)
                 || c == Condition("SyncFailed", "True", "SyncFailed", msg, Some(generation), now)
                 || IsOther(read, c)
  {
    hide Upserted, Unique;
    var cs := ConditionsOf(read);
    var c := Condition(READY, "False", SYNC_FAILED, msg, Some(generation), now);
    var d := Condition(SYNC_FAILED, "True", SYNC_FAILED, msg, Some(generation), now);
    UpsertedFacts(cs, c);
    UpsertedMembers(cs, c);
    UpsertedFacts(Upserted(cs, c), d);
    UpsertedMembers(Upserted(cs, c), d);
  }

  lemma EmptyUnique()
    ensures Unique([])
  {
  }

  // ----- runs -----

  /** A status update that read state `read`, or a change of the resource that leaves its status alone. */
  datatype Event =
    | Succeed(read: nat, generation: int, now: string)
    | Fail(read: nat, generation: int, now: string, msg: string)
    | Edit

  function Updated(u: Event, read: Option<CrStatus>): CrStatus
    requires !u.Edit?
  {
    if u.Succeed? then ReadyStatus(read, u.generation, u.now) else FailedStatus(read, u.generation, u.now, u.msg)
  }

  function StatusPart(server: Json): Option<Json> {
    if server.Obj? && "status" in server.fields then Some(server.fields["status"]) else None
  }

  /** State `i`: no status at first; each update reads any earlier state and patches the latest. */
  predicate LegalAt(states: seq<Json>, us: seq<Event>, i: nat)
    requires |states| == |us| + 1 && i < |states|
  {
    if i == 0 then states[0].Obj? && "status" !in states[0].fields
    else if us[i - 1].Edit? then states[i].Obj? && StatusPart(states[i]) == StatusPart(states[i - 1])
    else
      var r := us[i - 1].read;
      && r < i && ServerTyped(states[r])
      && states[i] == MergePatch(states[i - 1], StatusPatch(Updated(us[i - 1], ReadStatus(states[r]))))
  }

  predicate IsRun(states: seq<Json>, us: seq<Event>) {
    |states| == |us| + 1 && forall i :: 0 <= i < |states| ==> LegalAt(states, us, i)
  }

  /** A status the schema admits that is absent or coherent. */
  predicate Sound(server: Json) {
    ServerTyped(server) && (ReadStatus(server).Some? ==> Coherent(ReadStatus(server).value))
  }

  /** What an update of a sound read makes of a sound server. */
  lemma UpdateApplied(server: Json, u: Event, read: Json)
    requires !u.Edit? && Sound(server) && Sound(read)
    ensures var after := MergePatch(server, StatusPatch(Updated(u, ReadStatus(read))));
            && Sound(after) && ReadStatus(after).Some?
            && StatusOf(after).ready == u.Succeed?
            && StatusOf(after).lastSyncError == (if u.Succeed? then "" else u.msg)
            && StatusOf(after).observedGeneration == Some(u.generation)
            && StatusOf(after).lastSyncTime ==
               (if u.Succeed? then Some(u.now) else OrElse(StatusOf(read).lastSyncTime, StatusOf(server).lastSyncTime))
  {
    hide MergePatch, StatusTyped, Has, Absent, Unique, StatusPatch, DecodeStatus, Upserted, Without;
    UpdatesAreCoherent(ReadStatus(read), u.generation, u.now, if u.Fail? then u.msg else "");
    PatchMeaning(server, Updated(u, ReadStatus(read)));
  }

  lemma {:induction false} RunSound(states: seq<Json>, us: seq<Event>, i: nat)
    requires IsRun(states, us) && i < |states|
    ensures Sound(states[i])
    decreases i
  {
    hide MergePatch, StatusTyped, Coherent, StatusPatch, DecodeStatus, Updated;
    assert LegalAt(states, us, i);
    if i > 0 {
      RunSound(states, us, i - 1);
      if !us[i - 1].Edit? {
        RunSound(states, us, us[i - 1].read);
        UpdateApplied(states[i - 1], us[i - 1], states[us[i - 1].read]);
      }
    }
  }

  /** An update leaves exactly its own outcome on the server, however stale its read. */
  lemma UpdateShows(states: seq<Json>, us: seq<Event>, i: nat)
    requires IsRun(states, us) && i < |us| && !us[i].Edit?
    ensures Sound(states[i + 1]) && ReadStatus(states[i + 1]).Some?
    ensures StatusOf(states[i + 1]).ready == us[i].Succeed?
    ensures StatusOf(states[i + 1]).lastSyncError == if us[i].Succeed? then "" else us[i].msg
    ensures StatusOf(states[i + 1]).observedGeneration == Some(us[i].generation)
    ensures us[i].Succeed? ==> StatusOf(states[i + 1]).lastSyncTime == Some(us[i].now)
  {
    hide MergePatch, StatusTyped, Coherent, StatusPatch, DecodeStatus, Updated;
    assert LegalAt(states, us, i + 1);
    RunSound(states, us, i);
    RunSound(states, us, us[i].read);
    UpdateApplied(states[i], us[i], states[us[i].read]);
  }

  /**
   From no status at all, every status ever on the server is coherent, stays, and keeps some time of a last sync
   once it has one.
   */
  lemma {:induction false} StatusRuns(states: seq<Json>, us: seq<Event>, i: nat, j: nat)
    requires IsRun(states, us) && i <= j < |states|
    ensures Sound(states[i]) && Sound(states[j])
    ensures ReadStatus(states[i]).Some? ==> ReadStatus(states[j]).Some?
    ensures StatusOf(states[i]).lastSyncTime.Some? ==> StatusOf(states[j]).lastSyncTime.Some?
    decreases j
  {
    hide MergePatch, StatusTyped, Coherent, StatusPatch, DecodeStatus, Updated;
    RunSound(states, us, i);
    RunSound(states, us, j);
    if i < j {
      StatusRuns(states, us, i, j - 1);
      assert LegalAt(states, us, j);
      var u := us[j - 1];
      if !u.Edit? {
        RunSound(states, us, u.read);
        UpdateApplied(states[j - 1], u, states[u.read]);
      }
    }
  }

  // ----- when the time of the last sync is right -----

  /** A failure leaves the time as it is exactly if the state it read had no time or the present one. */
  lemma FailureKeepsTimeExactly(states: seq<Json>, us: seq<Event>, i: nat)
    requires IsRun(states, us) && i < |us| && us[i].Fail?
    ensures us[i].read <= i && Sound(states[us[i].read]) && Sound(states[i]) && Sound(states[i + 1])
    ensures var read, before, after := StatusOf(states[us[i].read]).lastSyncTime, StatusOf(states[i]).lastSyncTime,
                                       StatusOf(states[i + 1]).lastSyncTime;
            after == before <==> read.None? || read == before
  {
    hide MergePatch, StatusTyped, Coherent, StatusPatch, DecodeStatus, Updated;
    assert LegalAt(states, us, i + 1);
    RunSound(states, us, i);
    RunSound(states, us, us[i].read);
    UpdateApplied(states[i], us[i], states[us[i].read]);
  }

  /** The time of the last success among the first `n` events. */
  function LatestSync(us: seq<Event>, n: nat): Option<string>
    requires n <= |us|
  {
    if n == 0 then None else if us[n - 1].Succeed? then Some(us[n - 1].now) else LatestSync(us, n - 1)
  }

  /** No success was written between the read of the failure `m` and its write. */
  predicate ReadsLatest(us: seq<Event>, m: nat)
    requires m < |us|
  {
    us[m].Fail? ==> forall k :: us[m].read <= k < m ==> !us[k].Succeed?
  }

  lemma {:induction false} LatestSyncSame(us: seq<Event>, r: nat, n: nat)
    requires r <= n <= |us| && forall k :: r <= k < n ==> !us[k].Succeed?
    ensures LatestSync(us, r) == LatestSync(us, n)
  {
    if r < n {
      LatestSyncSame(us, r, n - 1);
    }
  }

  /**
   While no failure overlooks a success written between its read and its write, the time on the server is
   always that of the latest success. So the first wrong time is due to a failure that overlooked one.
   */
  lemma {:induction false} TimeIsLatest(states: seq<Json>, us: seq<Event>, i: nat)
    requires IsRun(states, us) && i < |states|
    requires forall m :: 0 <= m < i ==> ReadsLatest(us, m)
    ensures Sound(states[i]) && StatusOf(states[i]).lastSyncTime == LatestSync(us, i)
    decreases i
  {
    hide MergePatch, StatusTyped, Coherent, StatusPatch, DecodeStatus, Updated;
    assert LegalAt(states, us, i);
    RunSound(states, us, i);
    if i > 0 {
      var u := us[i - 1];
      assert ReadsLatest(us, i - 1);
      TimeIsLatest(states, us, i - 1);
      if !u.Edit? {
        TimeIsLatest(states, us, u.read);
        UpdateApplied(states[i - 1], u, states[u.read]);
        if u.Fail? {
          LatestSyncSame(us, u.read, i - 1);
        }
      }
    }
  }

  /**
   Once a time is wrong, a failure can set it back again with no success between its own read and write: here
   the last failure does, because the one before it had restored the right time.
   */
  lemma RewindRepeats(server: Json, g: int, t1: string, t2: string, t3: string, msg: string) returns (states: seq<Json>)
    requires server.Obj? && "status" !in server.fields
    ensures var us := [Succeed(0, g, t1), Succeed(1, g, t2), Fail(1, g, t3, msg), Fail(2, g, t3, msg), Fail(3, g, t3,
            msg)];
            IsRun(states, us) && ReadsLatest(us, 4)
    ensures Sound(states[4]) && StatusOf(states[4]).lastSyncTime == Some(t2)
    ensures Sound(states[5]) && StatusOf(states[5]).lastSyncTime == Some(t1)
  {
    hide MergePatch, StatusTyped, StatusPatch, DecodeStatus, Coherent, Updated;
    var us := [Succeed(0, g, t1), Succeed(1, g, t2), Fail(1, g, t3, msg), Fail(2, g, t3, msg), Fail(3, g, t3, msg)];
    var s1 := Applied(server, us[0], server);
    var s2 := Applied(s1, us[1], s1);
    var s3 := Applied(s2, us[2], s1);
    var s4 := Applied(s3, us[3], s2);
    var s5 := Applied(s4, us[4], s3);
    states := [server, s1, s2, s3, s4, s5];
    assert LegalAt(states, us, 0) && LegalAt(states, us, 1) && LegalAt(states, us, 2);
    assert LegalAt(states, us, 3) && LegalAt(states, us, 4) && LegalAt(states, us, 5);
  }

  lemma Applied(server: Json, u: Event, read: Json) returns (after: Json)
    requires !u.Edit? && Sound(server) && Sound(read)
    ensures Sound(after) && after == MergePatch(server, StatusPatch(Updated(u, ReadStatus(read))))
    ensures StatusOf(after).lastSyncTime == if u.Succeed? then Some(u.now)
            else OrElse(StatusOf(read).lastSyncTime, StatusOf(server).lastSyncTime)
  {
    hide MergePatch, StatusPatch, StatusTyped, DecodeStatus, Coherent, Updated;
    UpdateApplied(server, u, read);
    after := MergePatch(server, StatusPatch(Updated(u, ReadStatus(read))));
  }

  /** Never lost, but it can go back: a failure that read an old status writes that status's time over a newer one. */
  lemma StaleFailureRewindsTime(server: Json, g: int, t1: string, t2: string, t3: string, msg: string)
    returns (states: seq<Json>)
    requires server.Obj? && "status" !in server.fields
    ensures IsRun(states, [Succeed(0, g, t1), Succeed(1, g, t2), Fail(1, g, t3, msg)])
    ensures ServerTyped(states[2]) && StatusOf(states[2]).lastSyncTime == Some(t2)
    ensures ServerTyped(states[3]) && StatusOf(states[3]).lastSyncTime == Some(t1)
  {
    hide MergePatch, StatusTyped, StatusPatch, DecodeStatus, Upserted, Without;
    var us := [Succeed(0, g, t1), Succeed(1, g, t2), Fail(1, g, t3, msg)];
    var s1 := MergePatch(server, StatusPatch(Updated(us[0], ReadStatus(server))));
    PatchMeaning(server, Updated(us[0], ReadStatus(server)));
    var s2 := MergePatch(s1, StatusPatch(Updated(us[1], ReadStatus(s1))));
    PatchMeaning(s1, Updated(us[1], ReadStatus(s1)));
    var s3 := MergePatch(s2, StatusPatch(Updated(us[2], ReadStatus(s1))));
    PatchMeaning(s2, Updated(us[2], ReadStatus(s1)));
    states := [server, s1, s2, s3];
    assert LegalAt(states, us, 0) && LegalAt(states, us, 1) && LegalAt(states, us, 2) && LegalAt(states, us, 3);
  }
}
