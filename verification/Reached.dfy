/** The joint runs are not empty talk: one in which a vault item becomes the Secret of a resource that is then ready. */
module Reached {
  import opened Results
  import opened Bytes
  import opened Crypto
  import opened Vault
  import opened Lookup
  import opened Sessions
  import opened Status
  import opened Controller
  import opened Operator
  import Protocol
  import Runs
  import Calls
  import Schedules

  // ----- a vault with one item -----

  function ItemNamed(name: string, secret: string): Item {
    Item("", None, name, secret, "", map[])
  }

  /** A response with one personal item, its name and password sealed under `key`. */
  function OneItem(p: Primitives, key: SymmetricKey, iv: Block, name: seq<Byte>, secret: seq<Byte>): SyncResponse
    requires |key.encKey| == 32
  {
    SyncResponse("", [], [Cipher("", None, MakeType2(p, key, iv, name), None,
                                 Some(Login(Some(MakeType2(p, key, iv, secret)))), [])])
  }

  /** A name and a password as text and as bytes. */
  datatype Plain = Plain(name: string, secret: string, nameBytes: seq<Byte>, secretBytes: seq<Byte>)

  predicate Spelled(p: Primitives, x: Plain) {
    p.utf8(x.nameBytes) == Some(x.name) && p.utf8(x.secretBytes) == Some(x.secret) && x.name != "" && x.secret != ""
  }

  lemma MadeIsSealed(env: Env, key: SymmetricKey, iv: Block, m: seq<Byte>, plain: string)
    requires |key.encKey| == 32 && env.prims.utf8(m) == Some(plain)
    ensures Seals(env, key, MakeType2(env.prims, key, iv, m), plain)
  {
    hide MakeType2;
  }

  lemma NoFields()
    ensures IsFieldMap([], map[])
  {
  }

  lemma OneItemOpens(env: Env, key: SymmetricKey, iv: Block, x: Plain)
    requires Lawful(env.prims) && |key.encKey| == 32 && |key.macKey| == 32 && Spelled(env.prims, x)
    ensures var resp := OneItem(env.prims, key, iv, x.nameBytes, x.secretBytes);
            Deciphered(env, resp.ciphers[0], key) == Ok(ItemNamed(x.name, x.secret))
  {
    var resp := OneItem(env.prims, key, iv, x.nameBytes, x.secretBytes);
    var c, item := resp.ciphers[0], ItemNamed(x.name, x.secret);
    NoFields();
    hide MakeType2, Lawful, Seals, IsFieldMap, Deciphered, DecryptStr;
    MadeIsSealed(env, key, iv, x.nameBytes, x.name);
    MadeIsSealed(env, key, iv, x.secretBytes, x.secret);
    SealedTextOpens(env, key, c.login.value.password.value, x.secret);
    assert SealsItem(env, key, c, item, []);
    SealedItemOpens(env, key, c, item, []);
  }

  lemma OneItemVault(env: Env, key: SymmetricKey, iv: Block, x: Plain, cache: VaultCache)
    requires Lawful(env.prims) && |key.encKey| == 32 && |key.macKey| == 32 && Spelled(env.prims, x)
    requires IsVaultOf(env, OneItem(env.prims, key, iv, x.nameBytes, x.secretBytes), key, cache)
    ensures cache.items == [ItemNamed(x.name, x.secret)]
  {
    var resp := OneItem(env.prims, key, iv, x.nameBytes, x.secretBytes);
    OneItemOpens(env, key, iv, x);
    hide Deciphered, MakeType2, Lawful;
    var from :| KeptFrom(env, resp, key, 1, cache.items, from);
    assert Decrypts(env, resp, key, resp.ciphers[0]);
    IncreasingEqual(from, [0]);
  }

  lemma OneItemFound(env: Env, cache: VaultCache, x: Plain)
    requires WellIndexed(cache) && cache.items == [ItemNamed(x.name, x.secret)] && x.secret != ""
    ensures LookupItem(env, cache, x.name, None) == Ok(ItemNamed(x.name, x.secret))
    ensures IsSecret(ItemNamed(x.name, x.secret), x.secret)
  {
    ExactIsPartial(env, cache.items[0], x.name);
    hide Partial, Find;
    FindIsBest(env, cache.items, x.name, None);
    assert Candidate(env, cache.items[0], x.name, None);
  }

  // ----- the client fetches it -----

  function Fetched(x: Plain, cache: VaultCache): Protocol.Proc {
    Protocol.Caller([SecretRequest(x.name, None)], Protocol.Returned(Ok([x.secret])),
                    [Protocol.Pass(cache, Ok([x.secret]))])
  }

  function Calling(x: Plain, c: Protocol.CallPc): Protocol.Proc {
    Protocol.Caller([SecretRequest(x.name, None)], c, [])
  }

  lemma FetchSteps(cfg: Protocol.Config, sh: Protocol.Shared, cache: VaultCache, x: Plain)
    requires WellIndexed(cache) && cache.items == [ItemNamed(x.name, x.secret)] && x.secret != ""
    requires sh.session.vault == Some(cache) && sh.readers == {} && sh.writer.None?
    ensures var locked := sh.(readers := {1});
            var c0, c1 := Calling(x, Protocol.WantRead(None)), Calling(x, Protocol.Reading(None, []));
            var c2 := Calling(x, Protocol.Reading(None, [x.secret]));
            && Protocol.CallStep(cfg, sh, 1, c0, Protocol.NoReply) == Some((locked, c1))
            && Protocol.CallStep(cfg, locked, 1, c1, Protocol.Extracted(x.secret)) == Some((locked, c2))
            && Protocol.CallStep(cfg, locked, 1, c2, Protocol.NoReply) == Some((sh, Fetched(x, cache)))
  {
    OneItemFound(cfg.env, cache, x);
    hide WellIndexed, LookupItem, IsSecret, ItemNamed, Protocol.RefreshStep;
    assert sh.readers + {1} == {1} && {1} - {1} == sh.readers;
    assert [] + [x.secret] == [x.secret];
    assert [] + [Protocol.Pass(cache, Ok([x.secret]))] == Fetched(x, cache).passes;
  }

  lemma CallSteps(cfg: Protocol.Config, s: Protocol.State, cache: VaultCache, x: Plain)
    returns (ss: seq<Protocol.State>, acts: seq<Protocol.Action>)
    requires Runs.Indexed(s) && Schedules.Idle(s, cache)
    requires cache.items == [ItemNamed(x.name, x.secret)] && x.secret != ""
    ensures |ss| == 5 && |acts| == 4 && ss[0] == s && ss[4] == s.(procs := s.procs[1 := Fetched(x, cache)])
    ensures forall i :: 0 <= i < 4 ==> Schedules.LegalStep(cfg, ss, acts, i)
  {
    FetchSteps(cfg, s.sh, cache, x);
    var c0, c1 := Calling(x, Protocol.WantRead(None)), Calling(x, Protocol.Reading(None, []));
    var c2 := Calling(x, Protocol.Reading(None, [x.secret]));
    var s1 := s.(procs := s.procs[1 := c0]);
    var s2 := Protocol.State(s.sh.(readers := {1}), s.procs[1 := c1]);
    var s3 := s2.(procs := s.procs[1 := c2]);
    ss := [s, s1, s2, s3, s.(procs := s.procs[1 := Fetched(x, cache)])];
    var go := Protocol.Run(1, Protocol.NoReply);
    acts := [Protocol.Spawn(1, c0), go, Protocol.Run(1, Protocol.Extracted(x.secret)), go];
    hide Protocol.CallStep, WellIndexed;
    assert Schedules.LegalStep(cfg, ss, acts, 0);
    hide Schedules.LegalStep, Runs.Indexed, Fetched, Schedules.Idle;
    Schedules.SameVault(s, s1);
    Schedules.SameVault(s, s2);
    Schedules.SameVault(s, s3);
    Schedules.CallerAdvances(cfg, ss, acts, 1, 1, Protocol.NoReply, s2.sh, c1);
    Schedules.CallerAdvances(cfg, ss, acts, 2, 1, Protocol.Extracted(x.secret), s2.sh, c2);
    Schedules.CallerAdvances(cfg, ss, acts, 3, 1, Protocol.NoReply, s.sh, Fetched(x, cache));
  }

  lemma CallFinds(cfg: Protocol.Config, run: seq<Protocol.State>, acts: seq<Protocol.Action>, cache: VaultCache,
                  x: Plain)
    returns (run': seq<Protocol.State>, acts': seq<Protocol.Action>)
    requires Runs.IsRun(cfg, run, acts) && run != [] && Schedules.Idle(run[|run| - 1], cache)
    requires cache.items == [ItemNamed(x.name, x.secret)] && x.secret != ""
    ensures Runs.IsRun(cfg, run', acts') && run <= run'
    ensures CallGave(run', |run| - 1, |run'| - 1, 1, [SecretRequest(x.name, None)], Ok([x.secret]))
  {
    var s := run[|run| - 1];
    assert 1 !in s.procs;
    Schedules.RunIndexed(cfg, run, acts, |run| - 1);
    hide Runs.IsRun, Schedules.LegalStep, Schedules.Idle, Runs.Indexed;
    var ss, more := CallSteps(cfg, s, cache, x);
    Schedules.ExtendMany(cfg, run, acts, ss, more, 4);
    run', acts' := run + ss[1..5], acts + more[..4];
  }

  // ----- the operator stores it -----

  function SpecFor(key: string, name: string): Spec {
    Spec("", None, [Entry(key, Some(name), None, None)])
  }

  function TurnFor(key: string, x: Plain, now: string): Turn {
    Turn(Snapshot(SpecFor(key, x.name), 1, None), now, Ok([x.secret]), ApiAnswers(true, Confirmed, Confirmed))
  }

  lemma TurnStores(key: string, x: Plain, now: string)
    requires x.name != ""
    ensures Fetches(SpecFor(key, x.name)) && BuildRequests(SpecFor(key, x.name)) == Ok([SecretRequest(x.name, None)])
    ensures Decide(SpecFor(key, x.name), Ok([x.secret])) == Store([x.secret], DEFAULT_SYNC_INTERVAL)
    ensures SecretData(SpecFor(key, x.name).data, [x.secret]) == map[key := x.secret]
  {
    var spec := SpecFor(key, x.name);
    assert RequestsFrom(spec, 1) == Ok([]);
    assert [SecretRequest(x.name, None)] + [] == [SecretRequest(x.name, None)];
    assert SecretData(spec.data[..0], [x.secret][..0]) == map[];
  }

  function OneReconcile(say: Failure -> string, cl: Client, key: string, x: Plain, now: string): History {
    var c := ClusterState(Obj(map[]), SpecFor(key, x.name), 1, false, []);
    var t := TurnFor(key, x, now);
    History(say, [cl], [c, Reconciled(c, t, say)], [Reconcile(0, 0, 1, t)])
  }

  lemma OneReconcileIsRun(say: Failure -> string, cl: Client, key: string, x: Plain, now: string)
    requires Runs.IsRun(cl.cfg, cl.run, cl.acts) && Beside(cl, 2) && x.name != ""
    requires CallGave(cl.run, cl.at[0], cl.at[1], 1, [SecretRequest(x.name, None)], Ok([x.secret]))
    ensures Operator.IsRun(OneReconcile(say, cl, key, x, now))
  {
    TurnStores(key, x, now);
    hide Runs.IsRun, CallGave, Fetches, BuildRequests, StatusTyped, DecodeStatus, Decide, Reconciled, SpecFor;
    var h := OneReconcile(say, cl, key, x, now);
    assert Operator.LegalReconcile(h, 1, 0, 0, 1, TurnFor(key, x, now));
    hide LegalReconcile;
    assert Operator.LegalAt(h, 0) && Operator.LegalAt(h, 1);
  }

  lemma OneReconcileWrites(say: Failure -> string, cl: Client, key: string, x: Plain, now: string)
    requires x.name != ""
    ensures OneReconcile(say, cl, key, x, now).states[1].writes == [SecretWrite(true, 1, map[key := x.secret])]
    ensures EventOf(OneReconcile(say, cl, key, x, now).steps[0], say).Succeed?
  {
    TurnStores(key, x, now);
    hide Fetches, BuildRequests, Decide, SecretData, ReadyStatus, MergePatch, StatusPatch;
  }

  /** From an item in the vault to a Secret with its password under the entry's key, and a ready resource. */
  lemma ReadyIsReached(cfg: Protocol.Config, say: Failure -> string, key: string, x: Plain, now: string)
    returns (h: History)
    requires Lawful(cfg.env.prims) && Spelled(cfg.env.prims, x)
    ensures Operator.IsRun(h) && |h.states| == 2
    ensures h.states[1].writes == [SecretWrite(true, 1, map[key := x.secret])]
    ensures Sound(h.states[1].resource) && StatusOf(h.states[1].resource).ready
  {
    var cl := ClientFinds(cfg, x);
    h := OneReconcile(say, cl, key, x, now);
    OneReconcileIsRun(say, cl, key, x, now);
    OneReconcileWrites(say, cl, key, x, now);
    hide Operator.IsRun, EventOf, Sound, StatusOf, Reconciled;
    UpdateAt(h, 0);
  }

  lemma ClientFinds(cfg: Protocol.Config, x: Plain) returns (cl: Client)
    requires Lawful(cfg.env.prims) && Spelled(cfg.env.prims, x)
    ensures Runs.IsRun(cl.cfg, cl.run, cl.acts) && Beside(cl, 2)
    ensures CallGave(cl.run, cl.at[0], cl.at[1], 1, [SecretRequest(x.name, None)], Ok([x.secret]))
  {
    hide Runs.IsRun, Protocol.Init, IsVaultOf, Lawful, Schedules.Idle, CallGave, Spelled, WellIndexed;
    SpelledFilled(cfg.env.prims, x);
    var s := Schedules.LoggedInState(cfg, 61 * Protocol.SECOND);
    var resp, cache := VaultHolding(cfg.env, s.sh.session.symKey, x);
    var run, acts := Schedules.ClientComesUp(cfg, s, resp, cache);
    var run', acts' := CallFinds(cfg, run, acts, cache, x);
    cl := Client(cfg, run', acts', [|run| - 1, |run'| - 1]);
  }

  lemma SpelledFilled(p: Primitives, x: Plain)
    requires Spelled(p, x)
    ensures x.secret != ""
  {
  }

  lemma VaultHolding(env: Env, key: SymmetricKey, x: Plain) returns (resp: SyncResponse, cache: VaultCache)
    requires Lawful(env.prims) && Protocol.HasKeys(key) && Spelled(env.prims, x)
    ensures IsVaultOf(env, resp, key, cache) && cache.items == [ItemNamed(x.name, x.secret)]
  {
    hide IsVaultOf, Lawful, OneItem, Spelled;
    resp := OneItem(env.prims, key, ZEROS, x.nameBytes, x.secretBytes);
    cache := Calls.VaultExists(env, resp, key);
    OneItemVault(env, key, ZEROS, x, cache);
  }
}
