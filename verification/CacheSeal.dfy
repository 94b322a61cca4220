/** What a stage signs, when it raises an alarm and what it ends with, in every run of the cache protocol, the
    adversary's steps included. */
module CacheSeal {
  import opened ResultCache
  import opened CacheProtocol
  import opened CacheHonest

  // ---- what is signed was in the database ----

  /** The error a stage ends with when the seal goes wrong: its own, or for a stage that was completing, a tamper
      alarm exactly when the database answered with another record and no call was lost. */
  function SealError(a: Attempt, mismatch: bool): ErrorClass
    requires a.pc.Recorded? || a.pc.Stopping?
  {
    if a.pc.Stopping? then a.pc.cause else if mismatch && !a.uncertain then ClassCorrupt else ClassUnavailable
  }

  /** The seal. The store compares what it holds of the attempt with the stage's record: if they are the same it
      signs exactly what it holds, and if not, nothing is signed and the stage ends. */
  lemma SealDecides(states: seq<System>, steps: seq<Step>, i: nat)
    requires IsRun(states, steps) && i < |steps| && steps[i].Checkpoint?
    ensures var s, s', ref, seal := states[i], states[i + 1], steps[i].ref, steps[i].seal;
            ref in s.attempts && ref in s'.attempts &&
            var a, pc' := s.attempts[ref], s'.attempts[ref].pc;
            var held := StoredManifest(s.db, ref);
            && (a.pc.Recorded? || (a.pc.Stopping? && a.writes != []))
            && s'.signatures == s.signatures + (if !seal.Unreachable? && held == Expected(ref, a) then [Signature(ref, held)] else [])
            && (pc'.Signed? <==> seal.Signs? && held == Expected(ref, a))
            && (!pc'.Signed? ==> pc' == Failed(SealError(a, !seal.Unreachable? && held != Expected(ref, a))))
  {
    assert Enabled(states[i], steps[i]) && states[i + 1] == Apply(states[i], steps[i]);
    hide StoredManifest, Expected, IsRun;
  }

  /** No other step signs. */
  lemma OnlySealsSign(s: System, step: Step)
    requires Enabled(s, step) && !step.Checkpoint?
    ensures Apply(s, step).signatures == s.signatures
  {
    hide AfterSnapshot, Expected, PutTx, RecordTx, CheckpointsCorrupt, VerifiedCheckpoints, Storable;
  }

  /** Every signature there is was made by a seal of its attempt, at a moment when the database held exactly the
      record that it signs. */
  lemma {:induction false} SignedWasStored(states: seq<System>, steps: seq<Step>, i: nat, g: Signature) returns (j: nat)
    requires IsRun(states, steps) && i < |states| && g in states[i].signatures
    ensures j < i && steps[j].Checkpoint? && steps[j].ref == g.ref && StoredManifest(states[j].db, g.ref) == g.digest
  {
    hide StoredManifest, Expected, Enabled, Apply;
    if i == 0 {
      assert false;
    } else if g in states[i - 1].signatures {
      j := SignedWasStored(states, steps, i - 1, g);
    } else {
      j := i - 1;
      assert Enabled(states[j], steps[j]) && states[i] == Apply(states[j], steps[j]);
      if steps[j].Checkpoint? { SealDecides(states, steps, j); } else { OnlySealsSign(states[j], steps[j]); }
    }
  }

  // ---- the steps of one attempt ----

  predicate StepOf(step: Step, ref: AttemptRef) {
    !Outside(step) && step.ref == ref
  }

  /** Other steps leave an attempt alone. */
  lemma OthersLeave(s: System, step: Step, ref: AttemptRef)
    requires Enabled(s, step) && ref in s.attempts && !StepOf(step, ref)
    ensures ref in Apply(s, step).attempts && Apply(s, step).attempts[ref] == s.attempts[ref]
  {
    hide AfterSnapshot, Expected, CheckpointsCorrupt, VerifiedCheckpoints, Storable, ApplyPut, ApplyRecord, ApplyCheckpoint, HitEntries;
    match step
    case Put(r, x, result) => PutLeaves(s, r, s.attempts[r], x, result, ref);
    case RecordStage(r, result) => RecordLeavesOthers(s, r, s.attempts[r], result, ref);
    case Checkpoint(r, seal) => SealLeaves(s, r, s.attempts[r], seal, ref);
    case _ =>
  }

  lemma PutLeaves(s: System, r: AttemptRef, a: Attempt, x: Answer, result: CallResult, ref: AttemptRef)
    requires ref in s.attempts && ref != r
    ensures ref in ApplyPut(s, r, a, x, result).attempts && ApplyPut(s, r, a, x, result).attempts[ref] == s.attempts[ref]
  {
    hide PutTx;
  }

  lemma RecordLeavesOthers(s: System, r: AttemptRef, a: Attempt, result: CallResult, ref: AttemptRef)
    requires ref in s.attempts && ref != r
    ensures ref in ApplyRecord(s, r, a, result).attempts && ApplyRecord(s, r, a, result).attempts[ref] == s.attempts[ref]
  {
    hide RecordTx, StatsRow;
  }

  lemma SealLeaves(s: System, r: AttemptRef, a: Attempt, seal: SealResult, ref: AttemptRef)
    requires ref in s.attempts && ref != r && (a.pc.Recorded? || a.pc.Stopping?)
    ensures ref in ApplyCheckpoint(s, r, a, seal).attempts && ApplyCheckpoint(s, r, a, seal).attempts[ref] == s.attempts[ref]
  {
    hide Expected, StoredManifest;
  }

  /** A step of an attempt that was there before starts nothing. */
  lemma OwnStep(s: System, step: Step, ref: AttemptRef)
    requires Enabled(s, step) && StepOf(step, ref) && ref in s.attempts
    ensures !step.Start? && EnabledFor(s, step, ref, s.attempts[ref]) && ref in Apply(s, step).attempts
    ensures Apply(s, step) == ApplyFor(s, step, ref, s.attempts[ref])
  {
    hide AfterSnapshot, Expected, PutTx, RecordTx, CheckpointsCorrupt, VerifiedCheckpoints, Storable, StoredManifest;
  }

  lemma FirstStep(s: System, step: Step, ref: AttemptRef)
    requires Enabled(s, step) && ref !in s.attempts && ref in Apply(s, step).attempts
    ensures step.Start? && step.ref == ref && Apply(s, step).attempts[ref].pc.Ready?
    ensures var a := Apply(s, step).attempts[ref]; a.todo == a.plan.Values && a.found == map[] && a.hits == {} && a.mode == step.mode
  {
    hide AfterSnapshot, Expected, PutTx, RecordTx, CheckpointsCorrupt, VerifiedCheckpoints, Storable, StoredManifest;
  }

  // ---- what a lookup covers ----

  predicate PastLookup(pc: Pc) {
    pc.Collecting? || pc.Recorded? || pc.Stopping? || pc.Signed? || pc.Sealed? || pc.Completed?
  }

  /** A stage looks keys up only in enabled mode, each key in one batch, and goes on with all of them looked up and
      with a hit entry for exactly the tasks whose key was found. */
  predicate Covered(a: Attempt) {
    && a.todo <= a.plan.Values
    && (a.pc.Asked? || a.pc.Loaded? ==> a.pc.batch <= a.todo && LooksUp(a))
    && (forall k :: k in a.found ==> k in a.plan.Values && k !in a.todo)
    && (!LooksUp(a) ==> a.found == map[])
    && (PastLookup(a.pc) ==> a.hits == HitEntries(a.plan, a.found) && (LooksUp(a) ==> a.todo == {}))
  }

  /** A batch that nothing in it stops adds its trusted rows. */
  lemma SnapshotShape(a: Attempt, analyzer: string, db: Database)
    requires a.pc.Loaded?
    ensures var a' := AfterSnapshot(a, analyzer, db);
            || (a'.pc.Failed? && a' == a.(pc := a'.pc))
            || a' == a.(pc := Ready, todo := a.todo - a.pc.batch, found := a.found + TrustedRows(a, analyzer, db))
  {
    if BatchSigned(a, a.pc.producers) == map[] {
      forall k ensures k !in TrustedRows(a, analyzer, db) { NothingTrusted(a, analyzer, db, k); }
      assert a.found + TrustedRows(a, analyzer, db) == a.found;
    }
    hide BatchVerdict, BatchSigned, TrustedRows;
  }

  lemma NothingTrusted(a: Attempt, analyzer: string, db: Database, k: Key)
    requires a.pc.Loaded? && BatchSigned(a, a.pc.producers) == map[]
    ensures k !in TrustedRows(a, analyzer, db)
  {
    hide TakeSnapshot, Vouches, Decodes;
  }

  lemma SnapshotLookup(a: Attempt, analyzer: string, db: Database)
    requires Covered(a) && a.pc.Loaded?
    ensures Covered(AfterSnapshot(a, analyzer, db))
  {
    SnapshotShape(a, analyzer, db);
    var a' := AfterSnapshot(a, analyzer, db);
    hide HitEntries, AfterSnapshot, TrustedRows, Covered;
    if a'.pc.Failed? {
      MoveLookup(a, a');
    } else {
      assert forall k :: k in TrustedRows(a, analyzer, db) ==> k in a.pc.batch by { OnlyFromBatch(a, analyzer, db); }
      GrowsCovered(a, TrustedRows(a, analyzer, db));
    }
  }

  lemma OnlyFromBatch(a: Attempt, analyzer: string, db: Database)
    requires a.pc.Loaded?
    ensures forall k :: k in TrustedRows(a, analyzer, db) ==> k in a.pc.batch
  {
    hide BatchVerdict;
  }

  lemma GrowsCovered(a: Attempt, rows: map<Key, Row>)
    requires Covered(a) && a.pc.Loaded? && forall k :: k in rows ==> k in a.pc.batch
    ensures Covered(a.(pc := Ready, todo := a.todo - a.pc.batch, found := a.found + rows))
  {
    hide HitEntries;
  }

  /** A move of the pc and of the record that keeps where the lookup stands. */
  lemma MoveLookup(a: Attempt, a': Attempt)
    requires Covered(a) && a'.plan == a.plan && a'.mode == a.mode && a'.todo == a.todo && a'.found == a.found && a'.hits == a.hits
    requires a'.pc.Asked? || a'.pc.Loaded? ==> a'.pc.batch <= a'.todo && LooksUp(a')
    requires PastLookup(a'.pc) ==> PastLookup(a.pc)
    ensures Covered(a')
  {
    hide HitEntries;
  }

  /** The attempt after a step that leaves its lookup alone. */
  predicate SameLookup(a: Attempt, a': Attempt) {
    && a'.plan == a.plan && a'.mode == a.mode && a'.todo == a.todo && a'.found == a.found && a'.hits == a.hits
    && (a'.pc.Failed? || (PastLookup(a'.pc) && PastLookup(a.pc)))
  }

  lemma PutLeavesLookup(s: System, ref: AttemptRef, a: Attempt, x: Answer, result: CallResult)
    requires a.pc.Collecting?
    ensures var s' := ApplyPut(s, ref, a, x, result); ref in s'.attempts && SameLookup(a, s'.attempts[ref])
  {
    hide PutTx;
  }

  lemma RecordLeavesLookup(s: System, ref: AttemptRef, a: Attempt, result: CallResult)
    requires a.pc.Collecting?
    ensures var s' := ApplyRecord(s, ref, a, result); ref in s'.attempts && SameLookup(a, s'.attempts[ref])
  {
    hide RecordTx, StatsRow;
  }

  lemma SealLeavesLookup(s: System, ref: AttemptRef, a: Attempt, seal: SealResult)
    requires a.pc.Recorded? || a.pc.Stopping?
    ensures var s' := ApplyCheckpoint(s, ref, a, seal); ref in s'.attempts && SameLookup(a, s'.attempts[ref])
  {
    SealMoves(s, ref, a, seal);
    hide ApplyCheckpoint;
  }

  function SealedPc(a: Attempt, seal: SealResult, held: bool): Pc
    requires a.pc.Recorded? || a.pc.Stopping?
  {
    if seal.Signs? && held then Signed(a.pc.Recorded?, SealError(a, false)) else Failed(SealError(a, !seal.Unreachable? && !held))
  }

  lemma SealMoves(s: System, ref: AttemptRef, a: Attempt, seal: SealResult)
    requires a.pc.Recorded? || a.pc.Stopping?
    ensures var s' := ApplyCheckpoint(s, ref, a, seal);
            && ref in s'.attempts
            && s'.attempts[ref] == a.(pc := SealedPc(a, seal, StoredManifest(s.db, ref) == Expected(ref, a)))
  {
    hide Expected, StoredManifest;
  }

  /** The steps after the lookup leave it alone. */
  lemma RestLeavesLookup(s: System, step: Step, ref: AttemptRef, a: Attempt)
    requires EnabledFor(s, step, ref, a) && !step.AskProducers? && !step.LoadCheckpoints? && !step.ReadSnapshot? && !step.FinishLookup?
    requires ref in s.attempts && s.attempts[ref] == a
    ensures var s' := ApplyFor(s, step, ref, a); ref in s'.attempts && SameLookup(a, s'.attempts[ref])
  {
    hide ApplyPut, ApplyRecord, ApplyCheckpoint, AfterSnapshot, CheckpointsCorrupt, VerifiedCheckpoints, Expected, Storable;
    match step
    case Put(_, x, result) => PutLeavesLookup(s, ref, a, x, result);
    case RecordStage(_, result) => RecordLeavesLookup(s, ref, a, result);
    case Checkpoint(_, seal) => SealLeavesLookup(s, ref, a, seal);
    case _ =>
  }

  /** The lookup's own steps keep what is planned. */
  lemma LookupKeepsPlan(s: System, step: Step, ref: AttemptRef, a: Attempt)
    requires EnabledFor(s, step, ref, a) && (step.AskProducers? || step.LoadCheckpoints? || step.ReadSnapshot? || step.FinishLookup?)
    ensures var s' := ApplyFor(s, step, ref, a); ref in s'.attempts && s'.attempts[ref].plan == a.plan
  {
    hide AfterSnapshot, CheckpointsCorrupt, VerifiedCheckpoints, ProducersOf, HitEntries;
    if step.ReadSnapshot? { SnapshotShape(a, ref.analyzer, s.db); }
  }

  lemma PlanStays(s: System, step: Step, ref: AttemptRef)
    requires Enabled(s, step) && ref in s.attempts
    ensures ref in Apply(s, step).attempts && Apply(s, step).attempts[ref].plan == s.attempts[ref].plan
  {
    if !StepOf(step, ref) {
      OthersLeave(s, step, ref);
    } else {
      OwnStep(s, step, ref);
      hide Enabled, Apply, EnabledFor, ApplyFor;
      if step.AskProducers? || step.LoadCheckpoints? || step.ReadSnapshot? || step.FinishLookup? {
        LookupKeepsPlan(s, step, ref, s.attempts[ref]);
      } else {
        RestLeavesLookup(s, step, ref, s.attempts[ref]);
      }
    }
  }

  lemma LookupKept(s: System, step: Step, ref: AttemptRef, a: Attempt)
    requires EnabledFor(s, step, ref, a) && ref in s.attempts && s.attempts[ref] == a && Covered(a)
    ensures var s' := ApplyFor(s, step, ref, a); ref in s'.attempts && Covered(s'.attempts[ref])
  {
    if !step.AskProducers? && !step.LoadCheckpoints? && !step.ReadSnapshot? && !step.FinishLookup? {
      RestLeavesLookup(s, step, ref, a);
      hide ApplyFor, Covered, HitEntries, EnabledFor;
      MoveLookup(a, ApplyFor(s, step, ref, a).attempts[ref]);
    } else {
      LookupStepKept(s, step, ref, a);
    }
  }

  lemma LookupStepKept(s: System, step: Step, ref: AttemptRef, a: Attempt)
    requires EnabledFor(s, step, ref, a) && ref in s.attempts && s.attempts[ref] == a && Covered(a)
    requires step.AskProducers? || step.LoadCheckpoints? || step.ReadSnapshot? || step.FinishLookup?
    ensures var s' := ApplyFor(s, step, ref, a); ref in s'.attempts && Covered(s'.attempts[ref])
  {
    hide AfterSnapshot, CheckpointsCorrupt, VerifiedCheckpoints, Covered, HitEntries, ProducersOf;
    var a' := ApplyFor(s, step, ref, a).attempts[ref];
    if step.ReadSnapshot? {
      SnapshotLookup(a, ref.analyzer, s.db);
    } else if step.FinishLookup? {
      FinishCovers(a);
    } else if step.LoadCheckpoints? {
      LoadLookup(a, a');
    } else {
      MoveLookup(a, a');
    }
  }

  lemma FinishCovers(a: Attempt)
    requires Covered(a) && a.pc.Ready? && (!LooksUp(a) || a.todo == {})
    ensures Covered(a.(pc := Collecting, hits := HitEntries(a.plan, a.found)))
  {
  }

  lemma LoadLookup(a: Attempt, a': Attempt)
    requires Covered(a) && a.pc.Asked?
    requires a' == a.(pc := a'.pc, verified := a'.verified, signed := a'.signed) && (a'.pc.Failed? || a'.pc == Loaded(a.pc.batch, a.pc.producers))
    ensures Covered(a')
  {
  }

  lemma {:induction false} LookupAlong(states: seq<System>, steps: seq<Step>, i: nat, ref: AttemptRef)
    requires IsRun(states, steps) && i < |states| && ref in states[i].attempts
    ensures Covered(states[i].attempts[ref])
  {
    hide Covered, Enabled, Apply, ApplyFor, EnabledFor;
    if i > 0 {
      var s, step := states[i - 1], steps[i - 1];
      assert Enabled(s, step) && states[i] == Apply(s, step);
      if ref !in s.attempts {
        FirstStep(s, step, ref);
        StartLookup(states[i].attempts[ref]);
      } else {
        LookupAlong(states, steps, i - 1, ref);
        if StepOf(step, ref) {
          OwnStep(s, step, ref);
          LookupKept(s, step, ref, s.attempts[ref]);
        } else {
          OthersLeave(s, step, ref);
        }
      }
    }
  }

  lemma StartLookup(a: Attempt)
    requires a.todo == a.plan.Values && a.found == map[] && a.hits == {} && a.pc.Ready?
    ensures Covered(a)
  {
  }

  /** The step at j read the batch with `k` in it for the attempt, and `k` is found exactly when the snapshot read then
      vouched for its row, and then with that row. */
  ghost predicate LookedUpAt(states: seq<System>, steps: seq<Step>, j: nat, ref: AttemptRef, k: Key, found: map<Key, Row>)
    requires j < |steps| < |states|
  {
    && steps[j] == ReadSnapshot(ref) && ref in states[j].attempts && states[j].attempts[ref].pc.Loaded?
    && k in states[j].attempts[ref].pc.batch
    && (k in found <==> k in TrustedRows(states[j].attempts[ref], ref.analyzer, states[j].db))
    && (k in found ==> found[k] == states[j].db.rows[k])
  }

  /** What one snapshot does to a key. */
  lemma SnapshotKey(a: Attempt, analyzer: string, db: Database, k: Key)
    requires Covered(a) && a.pc.Loaded? && k in a.plan.Values
    ensures var a' := AfterSnapshot(a, analyzer, db);
            && a'.plan == a.plan
            && (a'.pc.Failed? || (
                && (k in a'.todo <==> k in a.todo && k !in a.pc.batch)
                && (k !in a.pc.batch ==> (k in a'.found <==> k in a.found) && (k in a.found ==> a'.found[k] == a.found[k]))
                && (k in a.pc.batch ==> (k in a'.found <==> k in TrustedRows(a, analyzer, db)) &&
                                        (k in a'.found ==> a'.found[k] == db.rows[k]))))
  {
    SnapshotShape(a, analyzer, db);
    hide BatchVerdict, AfterSnapshot, HitEntries;
  }

  lemma {:induction false} LookedUpAlong(states: seq<System>, steps: seq<Step>, i: nat, ref: AttemptRef, k: Key) returns (j: nat)
    requires IsRun(states, steps) && i < |states| && ref in states[i].attempts && !states[i].attempts[ref].pc.Failed?
    requires k in states[i].attempts[ref].plan.Values && k !in states[i].attempts[ref].todo
    ensures j < i && LookedUpAt(states, steps, j, ref, k, states[i].attempts[ref].found)
  {
    hide Enabled, Apply, ApplyFor, EnabledFor, Covered, LookedUpAt;
    if i == 0 {
      assert false;
    } else {
      var s, step := states[i - 1], steps[i - 1];
      assert Enabled(s, step) && states[i] == Apply(s, step);
      if ref !in s.attempts {
        FirstStep(s, step, ref);
        assert false;
      }
      var a, a' := s.attempts[ref], states[i].attempts[ref];
      PlanStays(s, step, ref);
      if step == ReadSnapshot(ref) && k in a.todo {
        OwnStep(s, step, ref);
        LookupAlong(states, steps, i - 1, ref);
        j := i - 1;
        ReadsKey(states, steps, j, ref, k);
      } else {
        LookupAlong(states, steps, i - 1, ref);
        StepKeepsKey(s, step, ref, k);
        j := LookedUpAlong(states, steps, i - 1, ref, k);
        assert LookedUpAt(states, steps, j, ref, k, a'.found) by { SameFinding(states, steps, j, ref, k, a.found, a'.found); }
      }
    }
  }

  lemma SameFinding(states: seq<System>, steps: seq<Step>, j: nat, ref: AttemptRef, k: Key, found: map<Key, Row>, found': map<Key, Row>)
    requires j < |steps| < |states| && LookedUpAt(states, steps, j, ref, k, found)
    requires (k in found' <==> k in found) && (k in found ==> found'[k] == found[k])
    ensures LookedUpAt(states, steps, j, ref, k, found')
  {
    hide TrustedRows;
  }

  lemma ReadsKey(states: seq<System>, steps: seq<Step>, j: nat, ref: AttemptRef, k: Key)
    requires IsRun(states, steps) && j < |steps| && steps[j] == ReadSnapshot(ref) && ref in states[j].attempts && ref in states[j + 1].attempts
    requires Covered(states[j].attempts[ref]) && k in states[j].attempts[ref].todo && k in states[j].attempts[ref].plan.Values
    requires k !in states[j + 1].attempts[ref].todo && !states[j + 1].attempts[ref].pc.Failed?
    ensures LookedUpAt(states, steps, j, ref, k, states[j + 1].attempts[ref].found)
  {
    assert Enabled(states[j], steps[j]) && states[j + 1] == Apply(states[j], steps[j]);
    hide IsRun, AfterSnapshot, TrustedRows, Covered;
    SnapshotKey(states[j].attempts[ref], ref.analyzer, states[j].db, k);
  }

  /** Once looked up, a key stays as it was found. */
  lemma StepKeepsKey(s: System, step: Step, ref: AttemptRef, k: Key)
    requires Enabled(s, step) && ref in s.attempts && Covered(s.attempts[ref]) && k in s.attempts[ref].plan.Values
    requires ref in Apply(s, step).attempts && !Apply(s, step).attempts[ref].pc.Failed? && k !in Apply(s, step).attempts[ref].todo
    requires step == ReadSnapshot(ref) ==> k !in s.attempts[ref].todo
    ensures var a, a' := s.attempts[ref], Apply(s, step).attempts[ref];
            && !a.pc.Failed? && k !in a.todo && a'.plan == a.plan
            && (k in a'.found <==> k in a.found) && (k in a.found ==> a'.found[k] == a.found[k])
  {
    if StepOf(step, ref) {
      OwnStep(s, step, ref);
      hide Enabled, Apply;
      OwnKeepsKey(s, step, ref, s.attempts[ref], k);
    } else {
      OthersLeave(s, step, ref);
    }
  }

  lemma OwnKeepsKey(s: System, step: Step, ref: AttemptRef, a: Attempt, k: Key)
    requires EnabledFor(s, step, ref, a) && ref in s.attempts && s.attempts[ref] == a && Covered(a) && k in a.plan.Values
    requires var s' := ApplyFor(s, step, ref, a); ref in s'.attempts && !s'.attempts[ref].pc.Failed? && k !in s'.attempts[ref].todo
    requires step.ReadSnapshot? ==> k !in a.todo
    ensures var a' := ApplyFor(s, step, ref, a).attempts[ref];
            && !a.pc.Failed? && k !in a.todo && a'.plan == a.plan
            && (k in a'.found <==> k in a.found) && (k in a.found ==> a'.found[k] == a.found[k])
  {
    if step.ReadSnapshot? {
      hide AfterSnapshot, TrustedRows;
      SnapshotKey(a, ref.analyzer, s.db, k);
    } else if !step.AskProducers? && !step.LoadCheckpoints? && !step.FinishLookup? {
      RestLeavesLookup(s, step, ref, a);
      hide ApplyFor, HitEntries;
      RunsOn(s, step, ref, a);
    } else {
      hide CheckpointsCorrupt, VerifiedCheckpoints, ProducersOf, HitEntries;
    }
  }

  lemma RunsOn(s: System, step: Step, ref: AttemptRef, a: Attempt)
    requires EnabledFor(s, step, ref, a)
    ensures !a.pc.Failed?
  {
  }

  /** Every planned key is looked up. A stage in enabled mode that goes on to collect has read every key of its plan in
      some batch, and found it exactly when the snapshot of that batch vouched for its row; it records a hit for exactly
      the tasks whose key was found. A stage in another mode finds nothing. */
  lemma EveryKeyIsLookedUp(states: seq<System>, steps: seq<Step>, i: nat, ref: AttemptRef)
    requires IsRun(states, steps) && i < |states| && ref in states[i].attempts && PastLookup(states[i].attempts[ref].pc)
    ensures var a := states[i].attempts[ref];
            && (a.mode.ModeEnabled? ==> forall k :: k in a.plan.Values ==> exists j :: 0 <= j < i && LookedUpAt(states, steps, j, ref, k, a.found))
            && (!a.mode.ModeEnabled? ==> a.found == map[])
            && a.hits == (set t | t in a.plan && a.plan[t] in a.found ::
                            Entry(t, RoleHit, a.plan[t], a.found[a.plan[t]].result, a.found[a.plan[t]].job))
  {
    var a := states[i].attempts[ref];
    LookupAlong(states, steps, i, ref);
    assert a.hits == HitEntries(a.plan, a.found) && (LooksUp(a) ==> a.todo == {}) && (!LooksUp(a) ==> a.found == map[]);
    hide LookedUpAt, IsRun, Covered;
    if a.mode.ModeEnabled? {
      forall k | k in a.plan.Values ensures exists j :: 0 <= j < i && LookedUpAt(states, steps, j, ref, k, a.found) {
        var j := LookedUpAlong(states, steps, i, ref, k);
      }
    }
  }

  // ---- alarms ----

  /** A checkpoint in storage that the lookup now loads fails verification, or was signed for another attempt. */
  ghost predicate BadEnvelope(s: System, ref: AttemptRef, a: Attempt)
    requires a.pc.Asked?
  {
    exists r :: r in s.storage && r.analyzer == ref.analyzer && r.job in a.pc.producers && r.job !in a.verified &&
                (s.storage[r].BadSignature? || (s.storage[r].Bound? && s.storage[r].subject != r))
  }

  /** A row of the batch was stored by an attempt whose checkpoint was loaded, and the database does not hold what that
      checkpoint signs, or what it signs holds no such write, or the row does not decode. */
  ghost predicate BadRow(s: System, ref: AttemptRef, a: Attempt, k: Key)
    requires a.pc.Loaded?
  {
    k in a.pc.batch && k in s.db.rows &&
    var row := s.db.rows[k];
    var r := AttemptRef(row.job, ref.analyzer, row.attempt);
    r in a.signed && row.job in a.pc.producers && !(StoredManifest(s.db, r) == a.signed[r] && Vouches(a.signed[r], k, row.result) && row.result.model != "")
  }

  /** What makes a step of an attempt a tamper alarm. */
  ghost predicate Alarming(s: System, step: Step, ref: AttemptRef, a: Attempt) {
    || (step == LoadCheckpoints(ref) && a.pc.Asked? && BadEnvelope(s, ref, a))
    || (step == ReadSnapshot(ref) && a.pc.Loaded? && exists k :: BadRow(s, ref, a, k))
    || (step.Checkpoint? && step.ref == ref && !step.seal.Unreachable? && a.pc.Recorded? && !a.uncertain &&
        StoredManifest(s.db, ref) != Expected(ref, a))
  }

  lemma LoadAlarms(s: System, ref: AttemptRef, a: Attempt)
    requires a.pc.Asked?
    ensures CheckpointsCorrupt(s.storage, ref.analyzer, a.pc.producers - a.verified) <==> BadEnvelope(s, ref, a)
  {
    if BadEnvelope(s, ref, a) {
      var r :| r in s.storage && r.analyzer == ref.analyzer && r.job in a.pc.producers && r.job !in a.verified &&
               (s.storage[r].BadSignature? || (s.storage[r].Bound? && s.storage[r].subject != r));
      assert Covers(r, ref.analyzer, a.pc.producers - a.verified) && BadCheckpoint(s.storage, r);
    }
  }

  lemma RowAlarms(s: System, ref: AttemptRef, a: Attempt, k: Key)
    requires a.pc.Loaded? && k in a.pc.batch && forall r :: r in a.signed ==> r.analyzer == ref.analyzer
    ensures BatchVerdict(a, ref.analyzer, s.db, k).Corrupt? <==> BadRow(s, ref, a, k)
    ensures !BatchVerdict(a, ref.analyzer, s.db, k).Misuse?
  {
    hide StoredManifest, Vouches;
    if k in s.db.rows { assert s.db.rows[k].job in ProducersOf(s.db, a.pc.batch); }
  }

  lemma BadRowSigned(s: System, ref: AttemptRef, a: Attempt, k: Key)
    requires a.pc.Loaded? && BadRow(s, ref, a, k)
    ensures k in a.pc.batch && BatchSigned(a, a.pc.producers) != map[]
  {
    hide StoredManifest, Vouches;
    var row := s.db.rows[k];
    assert AttemptRef(row.job, ref.analyzer, row.attempt) in BatchSigned(a, a.pc.producers);
  }

  ghost predicate AnyCorrupt(a: Attempt, analyzer: string, db: Database)
    requires a.pc.Loaded?
  {
    exists k :: k in a.pc.batch && BatchVerdict(a, analyzer, db, k).Corrupt?
  }

  ghost predicate AnyMisuse(a: Attempt, analyzer: string, db: Database)
    requires a.pc.Loaded?
  {
    exists k :: k in a.pc.batch && BatchVerdict(a, analyzer, db, k).Misuse?
  }

  /** What a snapshot that nobody misuses ends with. */
  lemma SnapshotPc(a: Attempt, analyzer: string, db: Database)
    requires a.pc.Loaded? && !AnyMisuse(a, analyzer, db)
    ensures AfterSnapshot(a, analyzer, db).pc ==
      if BatchSigned(a, a.pc.producers) != map[] && AnyCorrupt(a, analyzer, db) then Failed(ClassCorrupt) else Ready
  {
    hide BatchVerdict, BatchSigned, TrustedRows;
    if BatchSigned(a, a.pc.producers) == map[] {
      assert AfterSnapshot(a, analyzer, db).pc == Ready;
    } else if AnyCorrupt(a, analyzer, db) {
      assert AfterSnapshot(a, analyzer, db).pc == Failed(ClassCorrupt);
    } else {
      assert AfterSnapshot(a, analyzer, db).pc == Ready;
    }
  }

  lemma ReadAlarms(s: System, ref: AttemptRef, a: Attempt)
    requires a.pc.Loaded? && forall r :: r in a.signed ==> r.analyzer == ref.analyzer
    ensures AfterSnapshot(a, ref.analyzer, s.db).pc == if exists k :: BadRow(s, ref, a, k) then Failed(ClassCorrupt) else Ready
  {
    hide BatchVerdict, BatchSigned, BadRow, AfterSnapshot;
    forall k | k in a.pc.batch
      ensures BatchVerdict(a, ref.analyzer, s.db, k).Corrupt? <==> BadRow(s, ref, a, k)
      ensures !BatchVerdict(a, ref.analyzer, s.db, k).Misuse?
    {
      RowAlarms(s, ref, a, k);
    }
    SnapshotPc(a, ref.analyzer, s.db);
    if k :| BadRow(s, ref, a, k) { BadRowSigned(s, ref, a, k); }
  }

  // ---- what a stage ends with ----

  /** The error a stage has, or will end with unless it completes. */
  predicate Heading(pc: Pc, error: ErrorClass) {
    pc == Failed(error) || pc == Stopping(error) || (pc.Signed? && !pc.completing && pc.cause == error)
  }

  predicate CauseOk(pc: Pc) {
    && (pc.Stopping? || pc.Signed? ==> pc.cause != ClassCorrupt)
    && (pc.Signed? && pc.completing ==> pc.cause == ClassUnavailable)
  }

  /** The stage failed on its own account: its work failed, or its output could not be saved. */
  predicate OwnFailure(step: Step, ref: AttemptRef) {
    step == Stop(ref) || step == Persist(ref, false)
  }

  ghost predicate Ends(s: System, step: Step, ref: AttemptRef, a: Attempt, pc': Pc) {
    && CauseOk(pc')
    && (pc' == Failed(ClassCorrupt) <==> Alarming(s, step, ref, a))
    && (Heading(pc', ClassStage) <==> Heading(a.pc, ClassStage) || OwnFailure(step, ref))
  }

  lemma SealAlarms(s: System, ref: AttemptRef, a: Attempt, seal: SealResult)
    ensures Alarming(s, Checkpoint(ref, seal), ref, a) <==>
      !seal.Unreachable? && a.pc.Recorded? && !a.uncertain && StoredManifest(s.db, ref) != Expected(ref, a)
  {
    hide Expected, StoredManifest, BadRow, BadEnvelope;
  }

  lemma SealEnds(s: System, ref: AttemptRef, a: Attempt, seal: SealResult)
    requires (a.pc.Recorded? || a.pc.Stopping?) && CauseOk(a.pc)
    ensures var s' := ApplyCheckpoint(s, ref, a, seal); ref in s'.attempts && Ends(s, Checkpoint(ref, seal), ref, a, s'.attempts[ref].pc)
  {
    SealMoves(s, ref, a, seal);
    SealAlarms(s, ref, a, seal);
    hide Expected, StoredManifest, Alarming, ApplyCheckpoint;
    SealedPcEnds(a, seal, StoredManifest(s.db, ref) == Expected(ref, a));
  }

  lemma SealedPcEnds(a: Attempt, seal: SealResult, held: bool)
    requires (a.pc.Recorded? || a.pc.Stopping?) && CauseOk(a.pc)
    ensures var pc' := SealedPc(a, seal, held);
            && CauseOk(pc') && (pc' == Failed(ClassCorrupt) <==> !seal.Unreachable? && a.pc.Recorded? && !a.uncertain && !held)
            && (Heading(pc', ClassStage) <==> Heading(a.pc, ClassStage))
  {
  }

  lemma ReadEnds(s: System, ref: AttemptRef, a: Attempt)
    requires a.pc.Loaded? && forall r :: r in a.signed ==> r.analyzer == ref.analyzer
    ensures Ends(s, ReadSnapshot(ref), ref, a, AfterSnapshot(a, ref.analyzer, s.db).pc)
  {
    ReadAlarms(s, ref, a);
    SnapshotShape(a, ref.analyzer, s.db);
    hide AfterSnapshot, BadRow, BadEnvelope, TrustedRows;
  }

  lemma OwnStepEnds(s: System, step: Step, ref: AttemptRef, a: Attempt)
    requires EnabledFor(s, step, ref, a) && step.ref == ref && ref in s.attempts && s.attempts[ref] == a && CauseOk(a.pc)
    requires forall r :: r in a.signed ==> r.analyzer == ref.analyzer
    ensures var s' := ApplyFor(s, step, ref, a); ref in s'.attempts && Ends(s, step, ref, a, s'.attempts[ref].pc)
  {
    hide ApplyPut, ApplyRecord, ApplyCheckpoint, AfterSnapshot, CheckpointsCorrupt, VerifiedCheckpoints, Expected, Storable, Ends, CauseOk,
      ProducersOf, HitEntries, StoredManifest;
    match step
    case LoadCheckpoints(_) => LoadEnds(s, ref, a);
    case ReadSnapshot(_) => ReadEnds(s, ref, a);
    case Put(_, x, result) => PutEnds(s, ref, a, x, result);
    case RecordStage(_, result) => RecordEnds(s, ref, a, result);
    case Checkpoint(_, seal) => SealEnds(s, ref, a, seal);
    case _ => OtherEnds(s, step, ref, a);
  }

  lemma LoadEnds(s: System, ref: AttemptRef, a: Attempt)
    requires EnabledFor(s, LoadCheckpoints(ref), ref, a)
    ensures var s' := ApplyFor(s, LoadCheckpoints(ref), ref, a);
            ref in s'.attempts && Ends(s, LoadCheckpoints(ref), ref, a, s'.attempts[ref].pc)
  {
    hide CheckpointsCorrupt, VerifiedCheckpoints, BadEnvelope, BadRow, StoredManifest, Expected;
    LoadAlarms(s, ref, a);
  }

  lemma OtherEnds(s: System, step: Step, ref: AttemptRef, a: Attempt)
    requires EnabledFor(s, step, ref, a) && step.ref == ref && ref in s.attempts && s.attempts[ref] == a && CauseOk(a.pc)
    requires !step.LoadCheckpoints? && !step.ReadSnapshot? && !step.Put? && !step.RecordStage? && !step.Checkpoint?
    ensures var s' := ApplyFor(s, step, ref, a); ref in s'.attempts && Ends(s, step, ref, a, s'.attempts[ref].pc)
  {
    OtherPc(s, step, ref, a);
    assert !Alarming(s, step, ref, a);
    hide Alarming, ApplyFor, Storable;
  }

  lemma OtherPc(s: System, step: Step, ref: AttemptRef, a: Attempt)
    requires EnabledFor(s, step, ref, a) && ref in s.attempts && s.attempts[ref] == a
    requires !step.LoadCheckpoints? && !step.ReadSnapshot? && !step.Put? && !step.RecordStage? && !step.Checkpoint?
    ensures var s' := ApplyFor(s, step, ref, a);
            ref in s'.attempts &&
            var pc' := s'.attempts[ref].pc;
            match step
            case Stop(_) => pc' == Stopping(ClassStage)
            case GiveUp(_) => a.pc.Stopping? && pc' == Failed(a.pc.cause)
            case StoreCheckpoint(_, succeeds) => a.pc.Signed? && (pc'.Sealed? || pc' == Failed(a.pc.cause)) && (pc'.Sealed? <==> succeeds && a.pc.completing)
            case Persist(_, succeeds) => !a.pc.Stopping? && !a.pc.Signed? && !a.pc.Failed? && (if succeeds then pc'.Completed? else pc' == Failed(ClassStage))
            case LookupUnavailable(_) => !a.pc.Stopping? && !a.pc.Signed? && !a.pc.Failed? && pc' == Failed(ClassUnavailable)
            case _ => !a.pc.Stopping? && !a.pc.Signed? && !a.pc.Failed? && (pc'.Asked? || pc'.Collecting?)
  {
    hide Expected, Storable, ProducersOf, HitEntries;
  }

  lemma PutEnds(s: System, ref: AttemptRef, a: Attempt, x: Answer, result: CallResult)
    requires a.pc.Collecting?
    ensures var s' := ApplyPut(s, ref, a, x, result); ref in s'.attempts && Ends(s, Put(ref, x, result), ref, a, s'.attempts[ref].pc)
  {
    hide PutTx;
  }

  lemma RecordEnds(s: System, ref: AttemptRef, a: Attempt, result: CallResult)
    requires a.pc.Collecting?
    ensures var s' := ApplyRecord(s, ref, a, result); ref in s'.attempts && Ends(s, RecordStage(ref, result), ref, a, s'.attempts[ref].pc)
  {
    hide RecordTx, StatsRow;
  }

  lemma SignedAnalyzer(states: seq<System>, steps: seq<Step>, i: nat, ref: AttemptRef)
    requires IsRun(states, steps) && i < |states| && ref in states[i].attempts
    ensures forall r :: r in states[i].attempts[ref].signed ==> r.analyzer == ref.analyzer
  {
    InvAlong(states, steps, i);
    InvOf(states[i], ref);
  }

  /** An earlier step of the attempt was a tamper alarm. */
  ghost predicate Alarmed(states: seq<System>, steps: seq<Step>, i: nat, ref: AttemptRef)
    requires i <= |steps| < |states|
  {
    exists j :: 0 <= j < i && ref in states[j].attempts && Alarming(states[j], steps[j], ref, states[j].attempts[ref])
  }

  predicate FailedItself(steps: seq<Step>, i: nat, ref: AttemptRef)
    requires i <= |steps|
  {
    exists j :: 0 <= j < i && OwnFailure(steps[j], ref)
  }

  lemma AlarmedMore(states: seq<System>, steps: seq<Step>, i: nat, ref: AttemptRef)
    requires i < |steps| < |states|
    ensures Alarmed(states, steps, i + 1, ref) <==>
      Alarmed(states, steps, i, ref) || (ref in states[i].attempts && Alarming(states[i], steps[i], ref, states[i].attempts[ref]))
    ensures FailedItself(steps, i + 1, ref) <==> FailedItself(steps, i, ref) || OwnFailure(steps[i], ref)
  {
    hide Alarming, OwnFailure;
  }

  lemma NotHis(s: System, step: Step, ref: AttemptRef, a: Attempt)
    requires !StepOf(step, ref)
    ensures !Alarming(s, step, ref, a) && !OwnFailure(step, ref)
  {
  }

  lemma NotYet(s: System, step: Step, ref: AttemptRef)
    requires Enabled(s, step) && ref !in s.attempts
    ensures !OwnFailure(step, ref)
  {
  }

  lemma {:induction false} EndsAlong(states: seq<System>, steps: seq<Step>, i: nat, ref: AttemptRef)
    requires IsRun(states, steps) && i < |states|
    ensures ref !in states[i].attempts ==> !Alarmed(states, steps, i, ref) && !FailedItself(steps, i, ref)
    ensures ref in states[i].attempts ==>
      var pc := states[i].attempts[ref].pc;
      CauseOk(pc) && (pc == Failed(ClassCorrupt) <==> Alarmed(states, steps, i, ref)) && (Heading(pc, ClassStage) <==> FailedItself(steps, i, ref))
  {
    hide Alarming, OwnFailure, Enabled, Apply, EnabledFor, ApplyFor, Alarmed, FailedItself;
    if i == 0 {
      NothingBefore(states, steps, ref);
    } else {
      var s, step := states[i - 1], steps[i - 1];
      EndsAlong(states, steps, i - 1, ref);
      AlarmedMore(states, steps, i - 1, ref);
      assert Enabled(s, step) && states[i] == Apply(s, step);
      if ref !in s.attempts {
        NotYet(s, step, ref);
        if ref in states[i].attempts { FirstStep(s, step, ref); }
      } else if StepOf(step, ref) {
        OwnStep(s, step, ref);
        SignedAnalyzer(states, steps, i - 1, ref);
        OwnStepEnds(s, step, ref, s.attempts[ref]);
        RunsOn(s, step, ref, s.attempts[ref]);
      } else {
        OthersLeave(s, step, ref);
        NotHis(s, step, ref, s.attempts[ref]);
      }
    }
  }

  lemma NothingBefore(states: seq<System>, steps: seq<Step>, ref: AttemptRef)
    requires IsRun(states, steps)
    ensures ref !in states[0].attempts && !Alarmed(states, steps, 0, ref) && !FailedItself(steps, 0, ref)
  {
  }

  /** What a failed stage reports. It is result_cache_corrupt exactly when one of its steps met what a tamper alarm is
      for, its own error exactly when its work failed or its output could not be saved, whatever the seal then did, and
      result_cache_unavailable otherwise. */
  lemma FailsExactly(states: seq<System>, steps: seq<Step>, i: nat, ref: AttemptRef)
    requires IsRun(states, steps) && i < |states| && ref in states[i].attempts && states[i].attempts[ref].pc.Failed?
    ensures !(Alarmed(states, steps, i, ref) && FailedItself(steps, i, ref))
    ensures states[i].attempts[ref].pc.error ==
      if Alarmed(states, steps, i, ref) then ClassCorrupt else if FailedItself(steps, i, ref) then ClassStage else ClassUnavailable
  {
    hide Alarmed, FailedItself, IsRun;
    EndsAlong(states, steps, i, ref);
  }

  /** A stage that kept records and completed was sealed at a moment when the database held exactly its record: the
      writes it accepted, its hits and its one stats row. */
  lemma CompletedWasStored(states: seq<System>, steps: seq<Step>, i: nat, ref: AttemptRef) returns (j: nat)
    requires IsRun(states, steps) && i < |states| && ref in states[i].attempts
    requires states[i].attempts[ref].pc.Completed? && Records(states[i].attempts[ref])
    ensures var a := states[i].attempts[ref];
            && j < i && steps[j].Checkpoint? && steps[j].ref == ref
            && StoredManifest(states[j].db, ref) == Manifest(ref, multiset(a.writes) + multiset(a.hits), [StatsRow(a)])
  {
    hide IsRun, StoredManifest, StatsRow;
    var a := states[i].attempts[ref];
    SealBeforePersist(states, steps, i, ref);
    j := SignedWasStored(states, steps, i, Signature(ref, Expected(ref, a)));
  }
}
