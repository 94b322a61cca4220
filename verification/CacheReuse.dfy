/** What the cache is for: a row that an honest attempt stored and sealed is a hit for every later lookup of
    its key, and such a lookup is reachable for every reply the cache may store. */
module CacheReuse {
  import opened ResultCache
  import opened CacheProtocol
  import opened CacheHonest

  // ---- a sealed row is a hit ----

  /** The verdicts on the keys of one batch when nobody but the daemon wrote. */
  lemma HonestVerdict(s: System, b: AttemptRef, k: Key)
    requires Honest(s) && b in s.attempts && s.attempts[b].pc.Loaded? && k in s.attempts[b].pc.batch
    ensures !BatchVerdict(s.attempts[b], b.analyzer, s.db, k).Corrupt? && !BatchVerdict(s.attempts[b], b.analyzer, s.db, k).Misuse?
  {
    hide Inv, RowsOk, AttemptsOk, SignedOk, StorageOk, RowTrusted, RecordOk, Verify, TakeSnapshot;
    var a := s.attempts[b];
    NoBadRow(s, b, a, k);
    InvOf(s, b);
    VerifyNeverMisused(s.db, b.analyzer, a.pc.batch, BatchSigned(a, a.pc.producers), k);
  }

  lemma SealedVerdict(s: System, b: AttemptRef, k: Key)
    requires Honest(s) && b in s.attempts && s.attempts[b].pc.Loaded? && k in s.attempts[b].pc.batch && k in s.db.rows
    requires RowRef(k, s.db.rows[k]) in BatchSigned(s.attempts[b], s.attempts[b].pc.producers)
    ensures BatchVerdict(s.attempts[b], b.analyzer, s.db, k) == Trusted(s.db.rows[k])
  {
    hide Inv, RowsOk, AttemptsOk, SignedOk, StorageOk, RowTrusted, RecordOk, PhaseOk, BatchVerdict, StoredManifest, Vouches, Decodes;
    InvOf(s, b);
    VerdictOnSigned(s, b, s.db, k);
    SignedRowVouched(s, k, s.attempts[b].signed[RowRef(k, s.db.rows[k])]);
  }

  lemma HonestHit(s: System, b: AttemptRef, k: Key)
    requires Honest(s) && b in s.attempts && s.attempts[b].pc.Loaded? && k in s.attempts[b].pc.batch && k in s.db.rows
    requires RowRef(k, s.db.rows[k]) in BatchSigned(s.attempts[b], s.attempts[b].pc.producers)
    ensures var a' := AfterSnapshot(s.attempts[b], b.analyzer, s.db);
            a'.pc == Ready && k in a'.found && a'.found[k] == s.db.rows[k]
  {
    hide Honest, BatchVerdict, BatchSigned;
    var a := s.attempts[b];
    forall k | k in a.pc.batch
      ensures !BatchVerdict(a, b.analyzer, s.db, k).Corrupt? && !BatchVerdict(a, b.analyzer, s.db, k).Misuse?
    {
      HonestVerdict(s, b, k);
    }
    SealedVerdict(s, b, k);
  }

  /** When nobody but the daemon writes, a lookup ends no stage and takes every row of its batch whose attempt's
      checkpoint it loaded. */
  lemma SealedRowIsHit(states: seq<System>, steps: seq<Step>, i: nat, b: AttemptRef, k: Key)
    requires IsRun(states, steps) && i < |states| && Calm(states, steps)
    requires b in states[i].attempts && states[i].attempts[b].pc.Loaded? && k in states[i].attempts[b].pc.batch && k in states[i].db.rows
    requires RowRef(k, states[i].db.rows[k]) in BatchSigned(states[i].attempts[b], states[i].attempts[b].pc.producers)
    ensures var a' := AfterSnapshot(states[i].attempts[b], b.analyzer, states[i].db);
            a'.pc == Ready && k in a'.found && a'.found[k] == states[i].db.rows[k]
  {
    hide Honest, AfterSnapshot, BatchSigned, CalmStep;
    HonestAlong(states, steps, i);
    HonestHit(states[i], b, k);
  }

  // ---- and such a lookup happens ----

  /** A state of a run in which nobody but the daemon writes. */
  ghost predicate Reached(s: System) {
    exists states, steps :: IsRun(states, steps) && Undisturbed(steps) && states[|steps|] == s
  }

  predicate Undisturbed(steps: seq<Step>) {
    forall j :: 0 <= j < |steps| ==> !Outside(steps[j])
  }

  lemma ReachedFirst()
    ensures Reached(Initial)
  {
    assert IsRun([Initial], []) && Undisturbed([]);
  }

  lemma ReachedNext(s: System, step: Step)
    requires Reached(s) && Enabled(s, step) && !Outside(step)
    ensures Reached(Apply(s, step))
  {
    hide Enabled, Apply, Outside;
    var states, steps :| IsRun(states, steps) && Undisturbed(steps) && states[|steps|] == s;
    var states', steps' := states + [Apply(s, step)], steps + [step];
    forall i | 0 <= i < |steps'| ensures Enabled(states'[i], steps'[i]) && states'[i + 1] == Apply(states'[i], steps'[i]) {
      if i < |steps| { assert states'[i] == states[i] && states'[i + 1] == states[i + 1] && steps'[i] == steps[i]; }
    }
    assert IsRun(states', steps') && Undisturbed(steps');
  }

  lemma ReachedIsHonest(s: System)
    requires Reached(s)
    ensures Honest(s)
  {
    hide Honest;
    var states, steps :| IsRun(states, steps) && Undisturbed(steps) && states[|steps|] == s;
    HonestAlong(states, steps, |steps|);
  }

  /** A first stage without a lookup gets one reply. */
  function Producer(key: Key): Attempt {
    Attempt(ModeBypassed, map["t" := key], 1, 0, Collecting, {key}, {}, map[], map[], {}, {}, [], false, false)
  }

  lemma OneKey(key: Key)
    ensures map["t" := key].Values == {key}
  {
    assert map["t" := key]["t"] == key;
  }

  lemma Answered(p: AttemptRef, key: Key, reply: Reply) returns (s: System)
    requires p.analyzer == key.analyzer
    ensures Reached(s) && s.attempts == map[p := Producer(key)] && s.db == EmptyDatabase && s.storage == map[]
    ensures s.answers == {Answer(p, "t", key, reply)}
  {
    hide Reached;
    OneKey(key);
    ReachedFirst();
    s := Initial;
    ReachedNext(s, Start(p, ModeBypassed, map["t" := key], 1, 0));
    s := Apply(s, Start(p, ModeBypassed, map["t" := key], 1, 0));
    assert s.attempts == map[p := Producer(key).(pc := Ready)];
    assert HitEntries(map["t" := key], map[]) == {};
    ReachedNext(s, FinishLookup(p));
    s := Apply(s, FinishLookup(p));
    ReachedNext(s, Receive(p, "t", reply));
    s := Apply(s, Receive(p, "t", reply));
  }

  /** It stores the reply, and the record of its stage. */
  lemma Kept(p: AttemptRef, key: Key, reply: Reply) returns (s: System)
    requires p.analyzer == key.analyzer && Storable(key, reply)
    ensures Reached(s) && s.attempts.Keys == {p} && s.attempts[p].pc == Recorded && s.storage == map[]
    ensures !s.attempts[p].uncertain
    ensures key in s.db.rows && s.db.rows[key] == Row(reply, p.job, p.attempt)
  {
    hide Reached;
    s := Answered(p, key, reply);
    var put := Put(p, Answer(p, "t", key, reply), Committed);
    ReachedNext(s, put);
    s := Apply(s, put);
    ReachedNext(s, RecordStage(p, Committed));
    s := Apply(s, RecordStage(p, Committed));
  }

  /** It seals its stage. */
  lemma SealedUp(p: AttemptRef, key: Key, reply: Reply) returns (s: System)
    requires p.analyzer == key.analyzer && Storable(key, reply)
    ensures Reached(s) && s.attempts.Keys == {p} && p in s.storage && s.storage[p].Bound? && s.storage[p].subject == p
    ensures s.storage.Keys == {p}
    ensures key in s.db.rows && s.db.rows[key] == Row(reply, p.job, p.attempt)
  {
    hide Reached, StoredManifest, Expected;
    s := Kept(p, key, reply);
    assert StoredManifest(s.db, p) == Expected(p, s.attempts[p]) by { ReachedIsHonest(s); HonestOf(s, p); }
    ReachedNext(s, Checkpoint(p, Signs));
    s := Apply(s, Checkpoint(p, Signs));
    ReachedNext(s, StoreCheckpoint(p, true));
    s := Apply(s, StoreCheckpoint(p, true));
  }

  /** A second stage asks for the same key and loads the checkpoint. */
  lemma Asking(p: AttemptRef, b: AttemptRef, key: Key, reply: Reply) returns (s: System)
    requires p.analyzer == key.analyzer && b.analyzer == key.analyzer && b != p && Storable(key, reply)
    ensures Reached(s) && b in s.attempts && s.attempts[b].pc == Loaded({key}, {p.job}) && s.attempts[b].plan == map["t" := key]
    ensures p in BatchSigned(s.attempts[b], {p.job})
    ensures key in s.db.rows && s.db.rows[key] == Row(reply, p.job, p.attempt)
  {
    hide Reached;
    OneKey(key);
    s := SealedUp(p, key, reply);
    var start := Start(b, ModeEnabled, map["t" := key], 1, 0);
    ReachedNext(s, start);
    s := Apply(s, start);
    ReachedNext(s, AskProducers(b, {key}));
    s := Apply(s, AskProducers(b, {key}));
    assert ProducersOf(s.db, {key}) == {p.job};
    ReachedNext(s, LoadCheckpoints(b));
    s := Apply(s, LoadCheckpoints(b));
  }

  /** Reuse happens. For every reply that the cache may store under a key, and any two attempts of the key's
      analyzer, there is a run in which nobody but the daemon writes, one attempt stores and seals the reply, and
      the other finds it. */
  lemma ReuseHappens(p: AttemptRef, b: AttemptRef, key: Key, reply: Reply)
    requires p.analyzer == key.analyzer && b.analyzer == key.analyzer && b != p && Storable(key, reply)
    ensures exists s :: Reached(s) && b in s.attempts && s.attempts[b].plan == map["t" := key] &&
                        key in s.attempts[b].found && s.attempts[b].found[key] == Row(reply, p.job, p.attempt)
  {
    hide Reached, AfterSnapshot, Honest, BatchSigned, Storable;
    var s := Asking(p, b, key, reply);
    ReachedIsHonest(s);
    HonestHit(s, b, key);
    ReachedNext(s, ReadSnapshot(b));
    SnapshotPlan(s.attempts[b], b.analyzer, s.db);
    assert Apply(s, ReadSnapshot(b)).attempts[b].found[key] == Row(reply, p.job, p.attempt);
  }

  lemma SnapshotPlan(a: Attempt, analyzer: string, db: Database)
    requires a.pc.Loaded?
    ensures AfterSnapshot(a, analyzer, db).plan == a.plan
  {
    hide BatchVerdict, BatchSigned, TrustedRows;
  }
}
