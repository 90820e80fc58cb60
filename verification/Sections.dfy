/**
 The sections under the write lock: the step system's assignments, one per step, add up to what the methods
 of the session class do (src/vault/mod.rs:231-242, 326-361).
 */
module Sections {
  import opened Results
  import opened Vault
  import opened Crypto
  import opened Sessions
  import opened Protocol
  import opened Invariants
  import opened Runs

  /** Four steps of `p` alone, from taking the lock to giving it back, are the method that stores a token answer. */
  lemma TokenSection(env: Env, sh: Shared, p: nat, ch: Change)
    ensures var s1 := TokenStep(env, sh, p, WritingToken(ch, 0), NoReply);
            && s1 == Some((s1.value.0, More(WritingToken(ch, 1))))
            && var s2 := TokenStep(env, s1.value.0, p, WritingToken(ch, 1), NoReply);
               && s2 == Some((s2.value.0, More(WritingToken(ch, 2))))
               && var s3 := TokenStep(env, s2.value.0, p, WritingToken(ch, 2), NoReply);
                  && s3 == Some((s3.value.0, More(WritingToken(ch, 3))))
                  && var s4 := TokenStep(env, s3.value.0, p, WritingToken(ch, 3), NoReply);
                     && s4 == Some((s4.value.0, Finished(true)))
                     && s4.value.0.session == Stored(sh.session, ch, sh.now) && s4.value.0.writer.None?
  {
    hide WriteToken, DecryptSymmetricKey;
  }

  /** Two steps of `p` alone are the method that commits a cache. */
  lemma CommitSection(env: Env, sh: Shared, p: nat, onDemand: bool, resp: SyncResponse, key: SymmetricKey,
                      cache: VaultCache)
    ensures var s1 := RefreshStep(env, sh, p, onDemand, Committing(resp, key, cache, false), NoReply);
            && s1 == Some((s1.value.0, More(Committing(resp, key, cache, true))))
            && var s2 := RefreshStep(env, s1.value.0, p, onDemand, Committing(resp, key, cache, true), NoReply);
               && s2 == Some((s2.value.0, Finished(true)))
               && s2.value.0.session == Refreshed(sh.session, cache, sh.now)
               && s2.value.0.writer.None?
  {
  }

  /** While `p` holds the write lock nobody else changes the session or the holder of the lock. */
  lemma WriterIsAlone(cfg: Config, run: seq<State>, acts: seq<Action>, i: nat, p: nat)
    requires IsRun(cfg, run, acts) && i < |acts| && run[i].sh.writer == Some(p)
    requires !(acts[i].Run? && acts[i].p == p)
    ensures run[i + 1].sh.session == run[i].sh.session && run[i + 1].sh.writer == Some(p)
  {
    hide Init, Inv, ProcStep;
    assert LegalAt(cfg, run, acts, i + 1);
    RunInv(cfg, run, acts, i);
    StepKeeps(cfg, run[i], acts[i], run[i + 1]);
  }
}
