/** Runs of the cache protocol that nobody outside the daemon interferes with: jobs interleave in
    any way, calls fail, and some calls are lost with an unknown outcome, but no row and no
    checkpoint is written by anyone else. Such a run never raises a tamper alarm. */
module CacheHonest {
  import opened ResultCache
  import opened CacheProtocol

  predicate Outside(step: Step) {
    step.TamperDatabase? || step.TamperStorage?
  }

  /** The row under `k` decodes, and the attempt that stored it recorded the write in the same transaction. */
  ghost predicate RowOk(db: Database, k: Key) {
    k in db.rows ==>
      && Decodes(db.rows[k].result)
      && exists t :: WriteEntry(t, k, db.rows[k].result) in EntriesOf(db, RowRef(k, db.rows[k]))
  }

  ghost predicate RowsOk(db: Database) {
    forall k :: k in db.rows ==> RowOk(db, k)
  }

  /** What the database holds of an attempt is its record, unless a call of its was lost. */
  ghost predicate StoredOk(db: Database, ref: AttemptRef, a: Attempt) {
    !a.uncertain ==> StoredManifest(db, ref) == Expected(ref, a)
  }

  /** No attempt was stopped by an alarm, and its lookup asks for keys of its own analyzer. */
  predicate CalmOk(ref: AttemptRef, a: Attempt) {
    && a.pc != Failed(ClassCorrupt)
    && (a.pc.Stopping? || a.pc.Signed? ==> a.pc.cause != ClassCorrupt)
    && (forall k :: k in a.todo ==> k.analyzer == ref.analyzer)
    && (a.pc.Asked? || a.pc.Loaded? ==> a.pc.batch <= a.todo)
  }

  ghost predicate AttemptsOk(s: System) {
    && (forall ref :: ref in s.attempts ==> StoredOk(s.db, ref, s.attempts[ref]) && CalmOk(ref, s.attempts[ref]))
    && (forall ref :: ref !in s.attempts ==> EntriesOf(s.db, ref) == {} && StatsOf(s.db, ref) == [])
  }

  /** A signed attempt's rows are still what was signed. */
  ghost predicate SignedOk(s: System) {
    forall i :: 0 <= i < |s.signatures| ==> StoredManifest(s.db, s.signatures[i].ref) == s.signatures[i].digest
  }

  ghost predicate StorageOk(s: System) {
    forall ref :: ref in s.storage ==> s.storage[ref].Bound? && s.storage[ref].subject == ref
  }

  ghost predicate Honest(s: System) {
    Inv(s) && RowsOk(s.db) && AttemptsOk(s) && SignedOk(s) && StorageOk(s)
  }

  // ---- lookups raise no alarm ----

  lemma NoBadCheckpoint(s: System, analyzer: string, jobs: set<string>)
    requires Honest(s)
    ensures !CheckpointsCorrupt(s.storage, analyzer, jobs)
  {
  }

  /** If the attempt that stored a row is signed, its rows have not changed since and vouch for the row. */
  lemma SignedRowVouched(s: System, k: Key, m: Manifest)
    requires RowsOk(s.db) && SignedOk(s) && k in s.db.rows
    requires Signature(RowRef(k, s.db.rows[k]), m) in s.signatures
    ensures var r := RowRef(k, s.db.rows[k]);
            StoredManifest(s.db, r) == m && Vouches(m, k, s.db.rows[k].result) && Decodes(s.db.rows[k].result)
  {
    var r := RowRef(k, s.db.rows[k]);
    var i :| 0 <= i < |s.signatures| && s.signatures[i] == Signature(r, m);
    assert StoredManifest(s.db, r) == m;
    assert RowOk(s.db, k);
    var t :| WriteEntry(t, k, s.db.rows[k].result) in EntriesOf(s.db, r);
    assert WriteEntry(t, k, s.db.rows[k].result) in m.entries;
  }

  /** A row of an honest run is a hit or a miss. */
  lemma NoBadRow(s: System, ref: AttemptRef, a: Attempt, k: Key)
    requires Honest(s) && ref in s.attempts && a == s.attempts[ref] && a.pc.Loaded? && k in a.pc.batch
    ensures !BatchVerdict(a, ref.analyzer, s.db, k).Corrupt?
  {
    hide Inv, RecordOk, PhaseOk, OrderOk, SignaturesOk, AnswersOk, StoredOk, Vouches, Decodes, RowsOk, SignedOk, StorageOk;
    InvOf(s, ref);
    assert CalmOk(ref, a);
    if k in s.db.rows && RowRef(k, s.db.rows[k]) in a.signed {
      SignedRowVouched(s, k, a.signed[RowRef(k, s.db.rows[k])]);
    }
  }

  // ---- the steps ----

  /** A step that writes neither the database nor the storage and signs nothing. */
  lemma QuietHonest(s: System, s': System, ref: AttemptRef, a': Attempt)
    requires Honest(s) && Inv(s') && ref in s.attempts
    requires s'.db == s.db && s'.storage == s.storage && s'.signatures == s.signatures
    requires s'.attempts == s.attempts[ref := a']
    requires Expected(ref, a') == Expected(ref, s.attempts[ref]) && a'.uncertain == s.attempts[ref].uncertain
    requires CalmOk(ref, a')
    ensures Honest(s')
  {
    hide Inv, Expected, StoredManifest, CalmOk;
    assert StoredOk(s.db, ref, s.attempts[ref]);
  }

  lemma AttemptsKept(s: System, s': System, ref: AttemptRef, a': Attempt)
    requires AttemptsOk(s) && ref in s.attempts && s'.attempts == s.attempts[ref := a']
    requires forall r :: r != ref ==> EntriesOf(s'.db, r) == EntriesOf(s.db, r) && StatsOf(s'.db, r) == StatsOf(s.db, r)
    requires StoredOk(s'.db, ref, a') && CalmOk(ref, a')
    ensures AttemptsOk(s')
  {
    hide Expected, CalmOk, EntriesOf, StatsOf;
    forall r | r in s'.attempts ensures StoredOk(s'.db, r, s'.attempts[r]) && CalmOk(r, s'.attempts[r]) {
      if r != ref { assert StoredOk(s.db, r, s.attempts[r]); }
    }
  }

  predicate Unsigned(s: System, ref: AttemptRef) {
    forall i :: 0 <= i < |s.signatures| ==> s.signatures[i].ref != ref
  }

  lemma UnsignedYet(s: System, ref: AttemptRef)
    requires Inv(s) && ref in s.attempts && !Frozen(s.attempts[ref].pc)
    ensures Unsigned(s, ref)
  {
    hide AttemptOk, AnswersOk;
  }

  lemma SignedKept(s: System, s': System, ref: AttemptRef)
    requires SignedOk(s) && Unsigned(s, ref)
    requires s'.signatures == s.signatures
    requires forall r :: r != ref ==> EntriesOf(s'.db, r) == EntriesOf(s.db, r) && StatsOf(s'.db, r) == StatsOf(s.db, r)
    ensures SignedOk(s')
  {
    hide Expected, EntriesOf, StatsOf;
    forall i | 0 <= i < |s'.signatures| ensures StoredManifest(s'.db, s'.signatures[i].ref) == s'.signatures[i].digest {
      assert s.signatures[i].ref != ref;
      assert StoredManifest(s.db, s.signatures[i].ref) == s.signatures[i].digest;
    }
  }

  /** The attempt's rows in the database changed, nobody else's did, and it is not signed yet. */
  lemma WriteHonest(s: System, s': System, ref: AttemptRef, a': Attempt)
    requires Honest(s) && Inv(s') && ref in s.attempts && Unsigned(s, ref)
    requires s'.storage == s.storage && s'.signatures == s.signatures
    requires s'.attempts == s.attempts[ref := a']
    requires forall r :: r != ref ==> EntriesOf(s'.db, r) == EntriesOf(s.db, r) && StatsOf(s'.db, r) == StatsOf(s.db, r)
    requires StoredOk(s'.db, ref, a') && CalmOk(ref, a') && RowsOk(s'.db)
    ensures Honest(s')
  {
    hide Inv, Expected, CalmOk, RowsOk, AttemptsOk, SignedOk, EntriesOf, StatsOf, StoredOk, Unsigned;
    AttemptsKept(s, s', ref, a');
    SignedKept(s, s', ref);
    assert StorageOk(s');
  }

  lemma PutRowsOk(db: Database, ref: AttemptRef, task: string, key: Key, reply: Reply)
    requires RowsOk(db) && Decodes(reply) && key.analyzer == ref.analyzer
    ensures RowsOk(PutTx(db, ref, task, key, reply))
  {
    var db' := PutTx(db, ref, task, key, reply);
    forall k | k in db'.rows ensures RowOk(db', k) {
      if k == key {
        assert WriteEntry(task, k, reply) in EntriesOf(db', RowRef(k, db'.rows[k]));
      } else {
        assert RowOk(db, k);
        var t :| WriteEntry(t, k, db.rows[k].result) in EntriesOf(db, RowRef(k, db.rows[k]));
        assert WriteEntry(t, k, db'.rows[k].result) in EntriesOf(db', RowRef(k, db'.rows[k]));
      }
    }
  }

  lemma RecordRowsOk(db: Database, ref: AttemptRef, hits: set<Entry>, stats: Stats)
    requires RowsOk(db)
    ensures RowsOk(RecordTx(db, ref, hits, stats))
  {
    var db' := RecordTx(db, ref, hits, stats);
    forall k | k in db'.rows ensures RowOk(db', k) {
      assert RowOk(db, k);
      var t :| WriteEntry(t, k, db.rows[k].result) in EntriesOf(db, RowRef(k, db.rows[k]));
      assert WriteEntry(t, k, db'.rows[k].result) in EntriesOf(db', RowRef(k, db'.rows[k]));
    }
  }

  /** An accepted Put adds the same entry to the rows and to the record. */
  lemma PutStored(s: System, ref: AttemptRef, a: Attempt, x: Answer)
    requires RecordOk(s, ref, a) && !a.recorded && x.task !in a.tried
    requires StoredManifest(s.db, ref) == Expected(ref, a)
    ensures var a' := a.(tried := a.tried + {x.task}, writes := a.writes + [WriteEntry(x.task, x.key, x.reply)]);
            StoredManifest(PutTx(s.db, ref, x.task, x.key, x.reply), ref) == Expected(ref, a')
  {
    hide Genuine;
    var e := WriteEntry(x.task, x.key, x.reply);
    var rows := EntriesOf(s.db, ref);
    assert e !in a.writes by {
      forall i | 0 <= i < |a.writes| ensures a.writes[i] != e { assert WriteOk(s, ref, a, a.writes[i]); }
    }
    assert e !in rows by { assert multiset(rows) == multiset(a.writes); assert multiset(rows)[e] == 0; }
    assert multiset(rows + {e}) == multiset(rows) + multiset{e};
  }

  /** RecordStage adds the hits, none of which is among the writes, and the one stats row. */
  lemma RecordStored(s: System, ref: AttemptRef, a: Attempt)
    requires RecordOk(s, ref, a) && !a.recorded
    requires StoredManifest(s.db, ref) == Expected(ref, a)
    ensures var a' := a.(recorded := true);
            StoredManifest(RecordTx(s.db, ref, a.hits, StatsRow(a)), ref) == Expected(ref, a')
  {
    var rows := EntriesOf(s.db, ref);
    forall e | e in rows ensures e !in a.hits {
      assert e in multiset(rows);
      WritesAreNoHits(s, ref, a, e);
    }
    hide RecordOk;
    DisjointSum(rows, a.hits);
  }

  lemma WritesAreNoHits(s: System, ref: AttemptRef, a: Attempt, e: Entry)
    requires RecordOk(s, ref, a) && e in multiset(a.writes)
    ensures e !in a.hits
  {
    hide Genuine, WriteOk;
    var i :| 0 <= i < |a.writes| && a.writes[i] == e;
  }

  lemma DisjointSum(a: set<Entry>, b: set<Entry>)
    requires forall e :: e in a ==> e !in b
    ensures multiset(a + b) == multiset(a) + multiset(b)
  {
  }

  lemma HonestOf(s: System, ref: AttemptRef)
    requires Honest(s) && ref in s.attempts
    ensures var a := s.attempts[ref];
            AttemptOk(s, ref, a) && RecordOk(s, ref, a) && PhaseOk(a) && StoredOk(s.db, ref, a) && CalmOk(ref, a)
  {
    InvOf(s, ref);
  }

  lemma AnswerAnalyzer(s: System, x: Answer)
    requires Inv(s) && x in s.answers
    ensures x.key.analyzer == x.ref.analyzer
  {
    assert AnswersOk(s);
    assert RecordOk(s, x.ref, s.attempts[x.ref]) by { InvOf(s, x.ref); }
  }

  lemma ExpectedTried(ref: AttemptRef, a: Attempt, tried: set<string>)
    ensures Expected(ref, a.(tried := tried)) == Expected(ref, a)
  {
  }

  lemma PutHonest(s: System, ref: AttemptRef, x: Answer, result: CallResult)
    requires Honest(s) && Enabled(s, Put(ref, x, result))
    ensures Honest(Apply(s, Put(ref, x, result)))
  {
    hide Inv, AttemptOk, AttemptsOk, SignedOk, StorageOk, RowsOk, RecordOk, StoredManifest, Expected, PhaseOk;
    InvKept(s, Put(ref, x, result));
    HonestOf(s, ref);
    AnswerAnalyzer(s, x);
    var a := s.attempts[ref];
    assert !a.recorded by { CollectingNotRecorded(a); }
    var s' := ApplyPut(s, ref, a, x, result);
    PutRowsOk(s.db, ref, x.task, x.key, x.reply);
    if !a.uncertain { PutStored(s, ref, a, x); }
    ExpectedTried(ref, a, a.tried + {x.task});
    UnsignedYet(s, ref);
    WriteHonest(s, s', ref, s'.attempts[ref]);
  }

  lemma CollectingNotRecorded(a: Attempt)
    requires PhaseOk(a) && a.pc.Collecting?
    ensures !a.recorded
  {
  }

  /** What a RecordStage call leaves, whether it committed, was refused or was lost. */
  lemma RecordLeaves(s: System, ref: AttemptRef, a: Attempt, result: CallResult)
    requires RecordOk(s, ref, a) && !a.recorded && StoredOk(s.db, ref, a) && CalmOk(ref, a) && RowsOk(s.db) && a.pc.Collecting?
    ensures var s' := ApplyRecord(s, ref, a, result);
      && ref in s'.attempts && s'.attempts == s.attempts[ref := s'.attempts[ref]] && s'.storage == s.storage && s'.signatures == s.signatures
      && StoredOk(s'.db, ref, s'.attempts[ref]) && CalmOk(ref, s'.attempts[ref]) && RowsOk(s'.db)
      && (forall r :: r != ref ==> EntriesOf(s'.db, r) == EntriesOf(s.db, r) && StatsOf(s'.db, r) == StatsOf(s.db, r))
  {
    hide RowsOk, RecordOk, StoredManifest, Expected;
    RecordRowsOk(s.db, ref, a.hits, StatsRow(a));
    if !a.uncertain { RecordStored(s, ref, a); }
    ExpectedKept(ref, a.(recorded := true), Recorded);
    ExpectedKept(ref, a, Stopping(ClassUnavailable));
  }

  lemma RecordHonest(s: System, ref: AttemptRef, result: CallResult)
    requires Honest(s) && Enabled(s, RecordStage(ref, result))
    ensures Honest(Apply(s, RecordStage(ref, result)))
  {
    hide Inv, AttemptOk, AttemptsOk, SignedOk, StorageOk, RowsOk, RecordOk, StoredManifest, Expected, PhaseOk, ApplyRecord, CalmOk, StoredOk,
      Unsigned, EntriesOf, StatsOf;
    InvKept(s, RecordStage(ref, result));
    HonestOf(s, ref);
    var a := s.attempts[ref];
    CollectingNotRecorded(a);
    RecordLeaves(s, ref, a, result);
    var s' := ApplyRecord(s, ref, a, result);
    UnsignedYet(s, ref);
    WriteHonest(s, s', ref, s'.attempts[ref]);
  }

  lemma SignHonest(s: System, s': System, ref: AttemptRef, a': Attempt)
    requires Honest(s) && Inv(s') && ref in s.attempts
    requires s'.db == s.db && s'.storage == s.storage
    requires s'.attempts == s.attempts[ref := a'] && a' == s.attempts[ref].(pc := a'.pc) && CalmOk(ref, a')
    requires StoredManifest(s.db, ref) == Expected(ref, a')
    requires s'.signatures == s.signatures + [Signature(ref, Expected(ref, a'))]
    ensures Honest(s')
  {
    hide Inv, Expected, StoredManifest, CalmOk, RowsOk;
  }

  lemma CheckpointHonest(s: System, ref: AttemptRef, seal: SealResult)
    requires Honest(s) && Enabled(s, Checkpoint(ref, seal))
    ensures Honest(Apply(s, Checkpoint(ref, seal)))
  {
    hide Inv, AttemptOk, AttemptsOk, SignedOk, StorageOk, RowsOk, RecordOk, StoredManifest, Expected, PhaseOk;
    InvKept(s, Checkpoint(ref, seal));
    HonestOf(s, ref);
    var a := s.attempts[ref];
    var s' := ApplyCheckpoint(s, ref, a, seal);
    var a' := s'.attempts[ref];
    ExpectedKept(ref, a, a'.pc);
    if s'.signatures == s.signatures {
      QuietHonest(s, s', ref, a');
    } else {
      SignHonest(s, s', ref, a');
    }
  }

  lemma StoreHonest(s: System, ref: AttemptRef, succeeds: bool)
    requires Honest(s) && Enabled(s, StoreCheckpoint(ref, succeeds))
    ensures Honest(Apply(s, StoreCheckpoint(ref, succeeds)))
  {
    hide Inv, AttemptOk, AttemptsOk, SignedOk, RowsOk, RecordOk, StoredManifest, Expected, PhaseOk;
    InvKept(s, StoreCheckpoint(ref, succeeds));
    HonestOf(s, ref);
    var a := s.attempts[ref];
    var s' := Apply(s, StoreCheckpoint(ref, succeeds));
    var a' := s'.attempts[ref];
    ExpectedKept(ref, a, a'.pc);
    StorageGrows(s, s', ref, a');
  }

  lemma StorageGrows(s: System, s': System, ref: AttemptRef, a': Attempt)
    requires Honest(s) && Inv(s') && ref in s.attempts
    requires s'.db == s.db && s'.signatures == s.signatures && StorageOk(s')
    requires s'.attempts == s.attempts[ref := a'] && a' == s.attempts[ref].(pc := a'.pc) && CalmOk(ref, a')
    requires Expected(ref, a') == Expected(ref, s.attempts[ref])
    ensures Honest(s')
  {
    hide Inv, Expected, StoredManifest, CalmOk, RowsOk, StorageOk;
    assert StoredOk(s.db, ref, s.attempts[ref]);
  }

  lemma MoveHonest(s: System, step: Step, ref: AttemptRef, pc: Pc)
    requires Honest(s) && Enabled(s, step) && ref in s.attempts && CalmOk(ref, s.attempts[ref].(pc := pc))
    requires Apply(s, step) == Update(s, ref, s.attempts[ref].(pc := pc)) || Apply(s, step) == Call(s, ref, s.attempts[ref].(pc := pc))
    ensures Honest(Apply(s, step))
  {
    hide Inv, Enabled, Apply, AttemptsOk, SignedOk, StorageOk, RowsOk, Expected, CalmOk;
    InvKept(s, step);
    ExpectedKept(ref, s.attempts[ref], pc);
    QuietHonest(s, Apply(s, step), ref, s.attempts[ref].(pc := pc));
  }

  lemma LoadHonest(s: System, ref: AttemptRef)
    requires Honest(s) && Enabled(s, LoadCheckpoints(ref))
    ensures Honest(Apply(s, LoadCheckpoints(ref)))
  {
    hide Inv, AttemptOk, AttemptsOk, SignedOk, StorageOk, RowsOk, RecordOk, StoredManifest, PhaseOk, CheckpointsCorrupt;
    InvKept(s, LoadCheckpoints(ref));
    HonestOf(s, ref);
    var a := s.attempts[ref];
    NoBadCheckpoint(s, ref.analyzer, a.pc.producers - a.verified);
    var s' := Apply(s, LoadCheckpoints(ref));
    QuietHonest(s, s', ref, s'.attempts[ref]);
  }

  lemma ExpectedSame(ref: AttemptRef, a: Attempt, a': Attempt)
    requires a'.writes == a.writes && a'.hits == a.hits && a'.recorded == a.recorded
    requires a'.total == a.total && a'.preBuilt == a.preBuilt
    ensures Expected(ref, a') == Expected(ref, a)
  {
  }

  lemma CalmSnapshot(ref: AttemptRef, a: Attempt, db: Database)
    requires CalmOk(ref, a) && a.pc.Loaded?
    requires forall k :: k in a.pc.batch ==> !BatchVerdict(a, ref.analyzer, db, k).Corrupt?
    ensures var a' := AfterSnapshot(a, ref.analyzer, db);
            CalmOk(ref, a') && a'.uncertain == a.uncertain && Expected(ref, a') == Expected(ref, a)
  {
    hide BatchVerdict, BatchSigned, TrustedRows, Expected;
    ExpectedSame(ref, a, AfterSnapshot(a, ref.analyzer, db));
  }

  lemma ReadHonest(s: System, ref: AttemptRef)
    requires Honest(s) && Enabled(s, ReadSnapshot(ref))
    ensures Honest(Apply(s, ReadSnapshot(ref)))
  {
    hide Inv, AttemptOk, AttemptsOk, SignedOk, StorageOk, RowsOk, RecordOk, PhaseOk, BatchVerdict, AfterSnapshot, Expected, StoredOk, CalmOk;
    InvKept(s, ReadSnapshot(ref));
    HonestOf(s, ref);
    var a := s.attempts[ref];
    forall k | k in a.pc.batch ensures !BatchVerdict(a, ref.analyzer, s.db, k).Corrupt? {
      NoBadRow(s, ref, a, k);
    }
    CalmSnapshot(ref, a, s.db);
    var a' := AfterSnapshot(a, ref.analyzer, s.db);
    QuietHonest(s, Call(s, ref, a'), ref, a');
  }

  lemma FinishHonest(s: System, ref: AttemptRef)
    requires Honest(s) && Enabled(s, FinishLookup(ref))
    ensures Honest(Apply(s, FinishLookup(ref)))
  {
    hide Inv, AttemptOk, AttemptsOk, SignedOk, StorageOk, RowsOk, RecordOk, StoredManifest;
    InvKept(s, FinishLookup(ref));
    HonestOf(s, ref);
    var a := s.attempts[ref];
    var a' := a.(pc := Collecting, hits := HitEntries(a.plan, a.found));
    QuietHonest(s, Update(s, ref, a'), ref, a');
  }

  lemma ReceiveHonest(s: System, ref: AttemptRef, task: string, reply: Reply)
    requires Honest(s) && Enabled(s, Receive(ref, task, reply))
    ensures Honest(Apply(s, Receive(ref, task, reply)))
  {
    hide Inv, AttemptOk, AttemptsOk, SignedOk, StorageOk, RowsOk, StoredManifest, Expected;
    InvKept(s, Receive(ref, task, reply));
    HonestOf(s, ref);
    var s' := Apply(s, Receive(ref, task, reply));
    assert s'.attempts == s.attempts[ref := s.attempts[ref]];
    QuietHonest(s, s', ref, s.attempts[ref]);
  }

  lemma StartHonest(s: System, step: Step)
    requires Honest(s) && step.Start? && Enabled(s, step)
    ensures Honest(Apply(s, step))
  {
    hide Inv, RowsOk;
    InvKept(s, step);
    assert AttemptsOk(Apply(s, step));
  }

  lemma LookupMoveHonest(s: System, step: Step, ref: AttemptRef)
    requires Honest(s) && Enabled(s, step)
    requires step == LookupUnavailable(ref) || (step.AskProducers? && step.ref == ref)
    ensures Honest(Apply(s, step))
  {
    hide Honest;
    HonestOf(s, ref);
    MoveHonest(s, step, ref, if step.AskProducers? then Asked(step.batch, ProducersOf(s.db, step.batch)) else Failed(ClassUnavailable));
  }

  lemma StopHonest(s: System, ref: AttemptRef)
    requires Honest(s) && Enabled(s, Stop(ref))
    ensures Honest(Apply(s, Stop(ref)))
  {
    hide Honest;
    HonestOf(s, ref);
    MoveHonest(s, Stop(ref), ref, Stopping(ClassStage));
  }

  lemma GiveUpHonest(s: System, ref: AttemptRef)
    requires Honest(s) && Enabled(s, GiveUp(ref))
    ensures Honest(Apply(s, GiveUp(ref)))
  {
    hide Honest;
    HonestOf(s, ref);
    MoveHonest(s, GiveUp(ref), ref, Failed(s.attempts[ref].pc.cause));
  }

  lemma PersistHonest(s: System, ref: AttemptRef, succeeds: bool)
    requires Honest(s) && Enabled(s, Persist(ref, succeeds))
    ensures Honest(Apply(s, Persist(ref, succeeds)))
  {
    hide Honest;
    HonestOf(s, ref);
    MoveHonest(s, Persist(ref, succeeds), ref, if succeeds then Persisted(s.attempts[ref]) else Failed(ClassStage));
  }

  // ---- calls that commit late ----

  /** A reply that the attempt handed to a Put call. */
  predicate HandedOver(s: System, ref: AttemptRef, x: Answer)
    requires ref in s.attempts
  {
    x in s.answers && x.ref == ref && x.task in s.attempts[ref].tried && Storable(x.key, x.reply)
  }

  /** A Put or RecordStage call of an attempt that lost one commits, some time after it was given up. */
  ghost predicate LateCommit(s: System, step: Step, ref: AttemptRef) {
    && step.TamperDatabase? && ref in s.attempts && s.attempts[ref].uncertain
    && var a := s.attempts[ref];
       || step.db == RecordTx(s.db, ref, a.hits, StatsRow(a))
       || exists x :: HandedOver(s, ref, x) && step.db == PutTx(s.db, ref, x.task, x.key, x.reply)
  }

  /** A step of the daemon's own, or a call that commits late but before its attempt is signed. */
  ghost predicate CalmStep(s: System, step: Step) {
    !Outside(step) || exists ref :: LateCommit(s, step, ref) && Unsigned(s, ref)
  }

  /** Nobody but the daemon writes, and a call that commits late does so before its attempt is signed. */
  ghost predicate Calm(states: seq<System>, steps: seq<Step>)
    requires |states| == |steps| + 1
  {
    forall j :: 0 <= j < |steps| ==> CalmStep(states[j], steps[j])
  }

  lemma LateLeaves(s: System, step: Step, ref: AttemptRef)
    requires Inv(s) && RowsOk(s.db) && LateCommit(s, step, ref)
    ensures RowsOk(step.db)
    ensures forall r :: r != ref ==> EntriesOf(step.db, r) == EntriesOf(s.db, r) && StatsOf(step.db, r) == StatsOf(s.db, r)
  {
    hide Inv, RowsOk, PutTx, RecordTx, EntriesOf, StatsOf, StatsRow;
    var a := s.attempts[ref];
    if step.db == RecordTx(s.db, ref, a.hits, StatsRow(a)) {
      RecordRowsOk(s.db, ref, a.hits, StatsRow(a));
      RecordIsOwn(s.db, ref, a.hits, StatsRow(a));
    } else {
      var x :| HandedOver(s, ref, x) && step.db == PutTx(s.db, ref, x.task, x.key, x.reply);
      AnswerAnalyzer(s, x);
      PutRowsOk(s.db, ref, x.task, x.key, x.reply);
      PutIsOwn(s.db, ref, x.task, x.key, x.reply);
    }
  }

  lemma RecordIsOwn(db: Database, ref: AttemptRef, hits: set<Entry>, stats: Stats)
    ensures var db' := RecordTx(db, ref, hits, stats);
            forall r :: r != ref ==> EntriesOf(db', r) == EntriesOf(db, r) && StatsOf(db', r) == StatsOf(db, r)
  {
  }

  lemma PutIsOwn(db: Database, ref: AttemptRef, task: string, key: Key, reply: Reply)
    ensures var db' := PutTx(db, ref, task, key, reply);
            forall r :: r != ref ==> EntriesOf(db', r) == EntriesOf(db, r) && StatsOf(db', r) == StatsOf(db, r)
  {
  }

  lemma LateHonest(s: System, step: Step, ref: AttemptRef)
    requires Honest(s) && Enabled(s, step) && LateCommit(s, step, ref) && Unsigned(s, ref)
    ensures Honest(Apply(s, step))
  {
    hide Inv, AttemptsOk, SignedOk, StorageOk, RowsOk, CalmOk, Expected, StoredManifest, Unsigned, EntriesOf, StatsOf, AttemptOk, RecordOk,
      PhaseOk;
    InvKept(s, step);
    LateLeaves(s, step, ref);
    HonestOf(s, ref);
    assert s.attempts == s.attempts[ref := s.attempts[ref]];
    WriteHonest(s, Apply(s, step), ref, s.attempts[ref]);
  }

  /** A step that keeps what the database holds of the attempts whose record is frozen. */
  ghost predicate FrozenKept(s: System, s': System) {
    && s.signatures <= s'.signatures
    && forall r :: r in s.attempts && Frozen(s.attempts[r].pc) ==> StoredManifest(s'.db, r) == StoredManifest(s.db, r)
  }

  /** The verdict on a row whose attempt is among the signed ones a lookup loaded. */
  lemma VerdictOnSigned(s: System, b: AttemptRef, db: Database, k: Key)
    requires b in s.attempts && s.attempts[b].pc.Loaded? && LookupOk(s, b, s.attempts[b])
    requires k in s.attempts[b].pc.batch && k in db.rows
    requires RowRef(k, db.rows[k]) in BatchSigned(s.attempts[b], s.attempts[b].pc.producers)
    ensures var a, row := s.attempts[b], db.rows[k]; var ref := RowRef(k, row);
      BatchVerdict(a, b.analyzer, db, k) ==
        if StoredManifest(db, ref) == a.signed[ref] && Vouches(a.signed[ref], k, row.result) && Decodes(row.result)
        then Trusted(row) else Corrupt
  {
    hide StoredManifest, Vouches, Decodes, Genuine;
    assert db.rows[k].job in ProducersOf(db, s.attempts[b].pc.batch);
  }

  lemma RowVouched(db: Database, k: Key, m: Manifest)
    requires RowsOk(db) && k in db.rows && StoredManifest(db, RowRef(k, db.rows[k])) == m
    ensures Vouches(m, k, db.rows[k].result) && Decodes(db.rows[k].result)
  {
    assert RowOk(db, k);
    var t :| WriteEntry(t, k, db.rows[k].result) in EntriesOf(db, RowRef(k, db.rows[k]));
    assert WriteEntry(t, k, db.rows[k].result) in m.entries;
  }

  lemma PutKeepsFrozen(s: System, ref: AttemptRef, x: Answer, result: CallResult)
    requires Inv(s) && RowsOk(s.db) && Enabled(s, Put(ref, x, result))
    ensures FrozenKept(s, Apply(s, Put(ref, x, result))) && RowsOk(Apply(s, Put(ref, x, result)).db)
  {
    hide Inv, RowsOk;
    AnswerAnalyzer(s, x);
    PutRowsOk(s.db, ref, x.task, x.key, x.reply);
  }

  lemma RecordKeepsFrozen(s: System, ref: AttemptRef, result: CallResult)
    requires RowsOk(s.db) && Enabled(s, RecordStage(ref, result))
    ensures FrozenKept(s, Apply(s, RecordStage(ref, result))) && RowsOk(Apply(s, RecordStage(ref, result)).db)
  {
    hide RowsOk;
    var a := s.attempts[ref];
    RecordRowsOk(s.db, ref, a.hits, StatsRow(a));
  }

  /** The daemon never touches the record of an attempt that ended, and every row stays backed by one. */
  lemma DaemonKeepsFrozen(s: System, step: Step)
    requires Inv(s) && RowsOk(s.db) && Enabled(s, step) && !Outside(step)
    ensures FrozenKept(s, Apply(s, step)) && RowsOk(Apply(s, step).db)
  {
    hide Inv, RowsOk, StoredManifest, AfterSnapshot, Expected, CheckpointsCorrupt, VerifiedCheckpoints;
    match step
    case Put(ref, x, result) => PutKeepsFrozen(s, ref, x, result);
    case RecordStage(ref, result) => RecordKeepsFrozen(s, ref, result);
    case _ =>
  }

  /** The attempt was signed with one record, and the database holds another or the same. */
  ghost predicate Holds(s: System, ref: AttemptRef, signed: Manifest, held: Manifest) {
    Inv(s) && RowsOk(s.db) && Signature(ref, signed) in s.signatures && StoredManifest(s.db, ref) == held
  }

  lemma HoldsKept(s: System, step: Step, ref: AttemptRef, signed: Manifest, held: Manifest)
    requires Holds(s, ref, signed, held) && Enabled(s, step) && CalmStep(s, step)
    ensures Holds(Apply(s, step), ref, signed, held)
  {
    hide Inv, RowsOk, StoredManifest, LateCommit, Apply, Enabled, EntriesOf, StatsOf;
    InvKept(s, step);
    if Outside(step) {
      var r :| LateCommit(s, step, r) && Unsigned(s, r);
      LateLeaves(s, step, r);
      OutsideEffect(s, step, r, ref);
    } else {
      DaemonKeepsFrozen(s, step);
      SignedIsFrozen(s, Signature(ref, signed));
    }
  }

  lemma SignedIsFrozen(s: System, g: Signature)
    requires Inv(s) && g in s.signatures
    ensures g.ref in s.attempts && Frozen(s.attempts[g.ref].pc)
  {
    hide AttemptOk, AnswersOk, OrderOk, Expected;
    var i :| 0 <= i < |s.signatures| && s.signatures[i] == g;
  }

  lemma OutsideEffect(s: System, step: Step, r: AttemptRef, ref: AttemptRef)
    requires Enabled(s, step) && LateCommit(s, step, r) && r != ref
    requires EntriesOf(step.db, ref) == EntriesOf(s.db, ref) && StatsOf(step.db, ref) == StatsOf(s.db, ref)
    ensures Apply(s, step) == s.(db := step.db) && StoredManifest(step.db, ref) == StoredManifest(s.db, ref)
  {
  }

  lemma {:induction false} HoldsAlong(states: seq<System>, steps: seq<Step>, j: nat, i: nat, ref: AttemptRef, signed: Manifest, held: Manifest)
    requires IsRun(states, steps) && j <= i < |states| && Holds(states[j], ref, signed, held)
    requires forall l :: j <= l < i ==> CalmStep(states[l], steps[l])
    ensures Holds(states[i], ref, signed, held)
  {
    hide Holds, CalmStep, Enabled, Apply;
    if j < i {
      HoldsAlong(states, steps, j, i - 1, ref, signed, held);
      HoldsKept(states[i - 1], steps[i - 1], ref, signed, held);
    }
  }

  lemma LateHolds(s: System, step: Step, ref: AttemptRef)
    requires Honest(s) && Enabled(s, step) && LateCommit(s, step, ref) && !Unsigned(s, ref)
    ensures Holds(Apply(s, step), ref, StoredManifest(s.db, ref), StoredManifest(Apply(s, step).db, ref))
  {
    hide Inv, AttemptsOk, StorageOk, RowsOk, StoredManifest, EntriesOf, StatsOf;
    InvKept(s, step);
    LateLeaves(s, step, ref);
    var i :| 0 <= i < |s.signatures| && s.signatures[i].ref == ref;
    assert s.signatures[i] == Signature(ref, StoredManifest(s.db, ref));
  }

  lemma SignedOnce(s: System, g: Signature, g': Signature)
    requires Inv(s) && g in s.signatures && g' in s.signatures && g.ref == g'.ref
    ensures g == g'
  {
    hide AttemptOk, AnswersOk, OrderOk, Expected;
    var i :| 0 <= i < |s.signatures| && s.signatures[i] == g;
    var j :| 0 <= j < |s.signatures| && s.signatures[j] == g';
  }

  /** What a lookup makes of a row of an attempt that was signed with one record and holds another. */
  lemma AlarmExactly(s: System, ref: AttemptRef, signed: Manifest, held: Manifest, b: AttemptRef, k: Key)
    requires Holds(s, ref, signed, held) && b in s.attempts && s.attempts[b].pc.Loaded?
    requires k in s.attempts[b].pc.batch && k in s.db.rows && RowRef(k, s.db.rows[k]) == ref
    requires ref in BatchSigned(s.attempts[b], s.attempts[b].pc.producers)
    ensures BatchVerdict(s.attempts[b], b.analyzer, s.db, k) == (if held == signed then Trusted(s.db.rows[k]) else Corrupt)
    ensures held != signed ==> AfterSnapshot(s.attempts[b], b.analyzer, s.db).pc == Failed(ClassCorrupt)
  {
    hide Inv, RowsOk, RecordOk, PhaseOk, Expected, StoredManifest, SignaturesOk, AnswersOk, OrderOk, BatchVerdict, Vouches, Decodes, RowTrusted;
    var a := s.attempts[b];
    InvOf(s, b);
    SignedOnce(s, Signature(ref, a.signed[ref]), Signature(ref, signed));
    VerdictOnSigned(s, b, s.db, k);
    if held == signed { RowVouched(s.db, k, signed); }
  }

  /** A call that commits after its attempt was signed is a false alarm exactly when it changes what the
      database holds of the attempt. Then every lookup that comes to verify a row of the attempt against its
      checkpoint, at any time later in the run, ends as corrupt; otherwise the row stays a hit. */
  lemma LateAlarmExactly(states: seq<System>, steps: seq<Step>, j: nat, i: nat, ref: AttemptRef, b: AttemptRef, k: Key)
    requires IsRun(states, steps) && j < i < |states|
    requires LateCommit(states[j], steps[j], ref) && !Unsigned(states[j], ref)
    requires forall l :: 0 <= l < i && l != j ==> CalmStep(states[l], steps[l])
    requires b in states[i].attempts && states[i].attempts[b].pc.Loaded?
    requires k in states[i].attempts[b].pc.batch && k in states[i].db.rows && RowRef(k, states[i].db.rows[k]) == ref
    requires ref in BatchSigned(states[i].attempts[b], states[i].attempts[b].pc.producers)
    ensures var s, a, changed := states[i], states[i].attempts[b], StoredManifest(states[j + 1].db, ref) != StoredManifest(states[j].db, ref);
            && BatchVerdict(a, b.analyzer, s.db, k) == (if changed then Corrupt else Trusted(s.db.rows[k]))
            && (changed ==> AfterSnapshot(a, b.analyzer, s.db).pc == Failed(ClassCorrupt))
  {
    hide Honest, Holds, AfterSnapshot, CalmStep, LateCommit, Unsigned, StoredManifest, BatchVerdict, BatchSigned, RowRef;
    var s, step := states[j], steps[j];
    HonestAlong(states, steps, j);
    LateHolds(s, step, ref);
    var signed, held := StoredManifest(s.db, ref), StoredManifest(states[j + 1].db, ref);
    HoldsAlong(states, steps, j + 1, i, ref, signed, held);
    AlarmExactly(states[i], ref, signed, held, b, k);
  }

  /** A late RecordStage always changes the record, and a late Put does unless the same write is there. */
  lemma LateChanges(db: Database, ref: AttemptRef, hits: set<Entry>, stats: Stats, x: Answer)
    ensures StoredManifest(RecordTx(db, ref, hits, stats), ref) != StoredManifest(db, ref)
    ensures StoredManifest(PutTx(db, ref, x.task, x.key, x.reply), ref) != StoredManifest(db, ref)
      <==> WriteEntry(x.task, x.key, x.reply) !in EntriesOf(db, ref)
  {
    var e, rows := WriteEntry(x.task, x.key, x.reply), EntriesOf(db, ref);
    assert |StatsOf(db, ref) + [stats]| != |StatsOf(db, ref)|;
    if e in rows {
      assert rows + {e} == rows;
    } else {
      assert multiset(rows + {e})[e] == 1 && multiset(rows)[e] == 0;
    }
  }

  /** Every step of the daemon keeps an honest system honest. */
  lemma HonestKept(s: System, step: Step)
    requires Honest(s) && Enabled(s, step) && !Outside(step)
    ensures Honest(Apply(s, step))
  {
    hide Honest, Enabled, Apply;
    match step
    case Start(_, _, _, _, _) => StartHonest(s, step);
    case AskProducers(ref, _) => LookupMoveHonest(s, step, ref);
    case LoadCheckpoints(ref) => LoadHonest(s, ref);
    case ReadSnapshot(ref) => ReadHonest(s, ref);
    case LookupUnavailable(ref) => LookupMoveHonest(s, step, ref);
    case FinishLookup(ref) => FinishHonest(s, ref);
    case Receive(ref, task, reply) => ReceiveHonest(s, ref, task, reply);
    case Put(ref, x, result) => PutHonest(s, ref, x, result);
    case RecordStage(ref, result) => RecordHonest(s, ref, result);
    case Stop(ref) => StopHonest(s, ref);
    case GiveUp(ref) => GiveUpHonest(s, ref);
    case Checkpoint(ref, seal) => CheckpointHonest(s, ref, seal);
    case StoreCheckpoint(ref, succeeds) => StoreHonest(s, ref, succeeds);
    case Persist(ref, succeeds) => PersistHonest(s, ref, succeeds);
  }

  lemma {:induction false} HonestAlong(states: seq<System>, steps: seq<Step>, i: nat)
    requires IsRun(states, steps) && i < |states|
    requires forall j :: 0 <= j < i ==> CalmStep(states[j], steps[j])
    ensures Honest(states[i])
  {
    hide Apply, Enabled, Outside, LateCommit;
    if i > 0 {
      hide Honest;
      HonestAlong(states, steps, i - 1);
      var s, step := states[i - 1], steps[i - 1];
      assert CalmStep(s, step);
      if Outside(step) {
        var ref :| LateCommit(s, step, ref) && Unsigned(s, ref);
        LateHonest(s, step, ref);
      } else {
        HonestKept(s, step);
      }
    } else {
      HonestInitially();
    }
  }

  lemma HonestInitially()
    ensures Honest(Initial)
  {
  }

  /** No false alarm. When nobody but the daemon writes, no stage ever ends as corrupt, neither in a
      lookup nor at its seal, in any interleaving of any number of jobs, even when calls are lost with
      an unknown outcome and commit at once, never, or at any time before their attempt is signed; and the
      database holds exactly the record of every attempt without a lost call, so its seal never reports a
      mismatch. */
  lemma NoFalseAlarm(states: seq<System>, steps: seq<Step>, i: nat, ref: AttemptRef)
    requires IsRun(states, steps) && i < |states| && ref in states[i].attempts
    requires Calm(states, steps)
    ensures states[i].attempts[ref].pc != Failed(ClassCorrupt)
    ensures !states[i].attempts[ref].uncertain ==>
              StoredManifest(states[i].db, ref) == Expected(ref, states[i].attempts[ref])
  {
    HonestAlong(states, steps, i);
    HonestOf(states[i], ref);
  }
}
