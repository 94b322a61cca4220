/** The result-cache protocol as a transition system: any number of stage runs (attempts) take
    their steps in any order over one shared database and one shared checkpoint storage, and an
    adversary may rewrite the database and the storage between any two steps. It cannot sign: a
    checkpoint it stores that verifies must be one the daemon signed at some time. */
module CacheProtocol {
  import opened ResultCache

  datatype Mode = ModeEnabled | ModeBypassed | ModeDisabled

  /** How a stage run ended without completing. */
  datatype ErrorClass = ClassCorrupt | ClassUnavailable | ClassStage

  datatype Pc =
    | Ready                                             // planned, or between two lookup batches
    | Asked(batch: set<Key>, producers: set<string>)    // Producers answered
    | Loaded(batch: set<Key>, producers: set<string>)   // their checkpoints were loaded
    | Collecting                                        // lookups are over, results arrive and are stored
    | Recorded                                          // RecordStage succeeded, the seal comes next
    | Stopping(cause: ErrorClass)                       // the stage failed, its writes may still be sealed
    | Signed(completing: bool, cause: ErrorClass)       // Checkpoint committed, the envelope is not stored yet
    | Sealed(named: string)                             // the envelope is stored and the output names its attempt
    | Completed(named: string)                          // the output is persisted, with the attempt its metadata names
    | Failed(error: ErrorClass)

  /** One stage run: its plan, the locals of its lookup, and its in-process record (stageCache). */
  datatype Attempt = Attempt(
    mode: Mode,
    plan: map<string, Key>,
    total: nat,
    preBuilt: nat,
    pc: Pc,
    todo: set<Key>,
    verified: set<string>,
    signed: map<AttemptRef, Manifest>,
    found: map<Key, Row>,
    hits: set<Entry>,
    tried: set<string>,
    writes: seq<Entry>,
    recorded: bool,
    uncertain: bool)

  /** A reply the workers gave to one planned request. */
  datatype Answer = Answer(ref: AttemptRef, task: string, key: Key, reply: Reply)

  datatype Signature = Signature(ref: AttemptRef, digest: Manifest)

  datatype System = System(
    db: Database,
    storage: Checkpoints,
    attempts: map<AttemptRef, Attempt>,
    // history: every reply received, every signature made, every attempt whose checkpoint was
    // stored, and every attempt that made a store call
    answers: set<Answer>,
    signatures: seq<Signature>,
    stored: set<AttemptRef>,
    callers: set<AttemptRef>)

  const Initial := System(EmptyDatabase, map[], map[], {}, [], {}, {})

  /** How a Put or RecordStage call ended. A lost call may or may not have committed. */
  datatype CallResult = Committed | Refused | Lost(committed: bool)

  /** How a Checkpoint call went: it failed before or while signing, it signed and its transaction then
      failed, or it signed and committed. */
  datatype SealResult = Unreachable | CommitLost | Signs

  datatype Step =
    | Start(ref: AttemptRef, mode: Mode, plan: map<string, Key>, total: nat, preBuilt: nat)
    | AskProducers(ref: AttemptRef, batch: set<Key>)
    | LoadCheckpoints(ref: AttemptRef)
    | ReadSnapshot(ref: AttemptRef)
    | LookupUnavailable(ref: AttemptRef)
    | FinishLookup(ref: AttemptRef)
    | Receive(ref: AttemptRef, task: string, reply: Reply)
    | Put(ref: AttemptRef, answer: Answer, result: CallResult)
    | RecordStage(ref: AttemptRef, result: CallResult)
    | Stop(ref: AttemptRef)
    | GiveUp(ref: AttemptRef)
    | Checkpoint(ref: AttemptRef, seal: SealResult)
    | StoreCheckpoint(ref: AttemptRef, succeeds: bool)
    | Persist(ref: AttemptRef, succeeds: bool)
    | TamperDatabase(db: Database)
    | TamperStorage(storage: Checkpoints)

  // ---- what an attempt computes ----

  /** The hit entries of the tasks whose key was found (the end of lookupCached). */
  function HitEntries(plan: map<string, Key>, found: map<Key, Row>): set<Entry> {
    set t | t in plan && plan[t] in found :: Entry(t, RoleHit, plan[t], found[plan[t]].result, found[plan[t]].job)
  }

  function StatsRow(a: Attempt): Stats {
    var hits := |a.hits|;
    Stats(a.total, hits, if a.preBuilt + hits <= a.total then a.total - a.preBuilt - hits else 0)
  }

  /** stageCache.expected: the writes Put accepted and, once recorded, the hits and the stats row. */
  function Expected(ref: AttemptRef, a: Attempt): Manifest {
    if a.recorded then
      Manifest(ref, multiset(a.writes) + multiset(a.hits), [StatsRow(a)])
    else
      Manifest(ref, multiset(a.writes), [])
  }

  /** What putResults demands of a reply before it stores it under the task's key. */
  predicate Storable(key: Key, reply: Reply) {
    reply.model != "" && reply.model == key.observed && reply.deployment == key.deployment
  }

  predicate Records(a: Attempt) {
    !a.mode.ModeDisabled?
  }

  predicate LooksUp(a: Attempt) {
    a.mode.ModeEnabled? && a.plan != map[]
  }

  /** The part of the loaded checkpoints that one batch's verification may use. */
  function BatchSigned(a: Attempt, producers: set<string>): map<AttemptRef, Manifest> {
    map ref | ref in a.signed && ref.job in producers :: a.signed[ref]
  }

  /** What the snapshot of a batch says of one of its keys. */
  function BatchVerdict(a: Attempt, analyzer: string, db: Database, k: Key): Verdict
    requires a.pc.Loaded?
  {
    var signed := BatchSigned(a, a.pc.producers);
    Verify(TakeSnapshot(db, analyzer, a.pc.batch, signed.Keys), k, signed)
  }

  function TrustedRows(a: Attempt, analyzer: string, db: Database): map<Key, Row>
    requires a.pc.Loaded?
  {
    map k | k in db.rows && k in a.pc.batch && BatchVerdict(a, analyzer, db, k).Trusted? :: db.rows[k]
  }

  /** One batch: read the snapshot, verify every row in it. */
  function AfterSnapshot(a: Attempt, analyzer: string, db: Database): Attempt
    requires a.pc.Loaded?
  {
    var rest := a.todo - a.pc.batch;
    if BatchSigned(a, a.pc.producers) == map[] then a.(pc := Ready, todo := rest)
    else if exists k :: k in a.pc.batch && BatchVerdict(a, analyzer, db, k).Corrupt? then a.(pc := Failed(ClassCorrupt))
    else if exists k :: k in a.pc.batch && BatchVerdict(a, analyzer, db, k).Misuse? then a.(pc := Failed(ClassUnavailable))
    else a.(pc := Ready, todo := rest, found := a.found + TrustedRows(a, analyzer, db))
  }

  // ---- enabled steps ----

  predicate EnabledFor(s: System, step: Step, ref: AttemptRef, a: Attempt) {
    match step
    case AskProducers(_, batch) => a.pc.Ready? && LooksUp(a) && batch != {} && batch <= a.todo
    case LoadCheckpoints(_) => a.pc.Asked?
    case ReadSnapshot(_) => a.pc.Loaded?
    case LookupUnavailable(_) => (a.pc.Ready? && LooksUp(a) && a.todo != {}) || a.pc.Asked? || a.pc.Loaded?
    case FinishLookup(_) => a.pc.Ready? && (!LooksUp(a) || a.todo == {})
    // one-to-one collection: a task that was not a hit is answered at most once
    case Receive(_, task, _) =>
      a.pc.Collecting? && task in a.plan && (forall h :: h in a.hits ==> h.task != task) &&
      (forall x :: x in s.answers ==> !(x.ref == ref && x.task == task))
    case Put(_, x, _) =>
      a.pc.Collecting? && Records(a) && x in s.answers && x.ref == ref && x.task !in a.tried && Storable(x.key, x.reply)
    case RecordStage(_, _) => a.pc.Collecting? && Records(a)
    case Stop(_) => a.pc.Collecting?
    case GiveUp(_) => a.pc.Stopping?
    case Checkpoint(_, _) => a.pc.Recorded? || (a.pc.Stopping? && Records(a) && a.writes != [])
    case StoreCheckpoint(_, _) => a.pc.Signed?
    case Persist(_, _) => a.pc.Sealed? || (a.pc.Collecting? && !Records(a))
    case _ => false
  }

  predicate Enabled(s: System, step: Step) {
    match step
    case Start(ref, mode, plan, total, preBuilt) =>
      ref !in s.attempts && (mode.ModeDisabled? ==> plan == map[]) &&
      (forall t :: t in plan ==> plan[t].analyzer == ref.analyzer)
    case TamperDatabase(_) => true
    case TamperStorage(storage) =>
      forall ref :: ref in storage && storage[ref].Bound? ==>
        Signature(storage[ref].subject, storage[ref].digest) in s.signatures
    case _ => step.ref in s.attempts && EnabledFor(s, step, step.ref, s.attempts[step.ref])
  }

  // ---- the effect of a step ----

  function Update(s: System, ref: AttemptRef, a: Attempt): System {
    s.(attempts := s.attempts[ref := a])
  }

  /** An update by an attempt that called the store. */
  function Call(s: System, ref: AttemptRef, a: Attempt): System {
    Update(s, ref, a).(callers := s.callers + {ref})
  }

  function ApplyPut(s: System, ref: AttemptRef, a: Attempt, x: Answer, result: CallResult): System {
    var tried := a.(tried := a.tried + {x.task});
    var written := PutTx(s.db, ref, x.task, x.key, x.reply);
    match result
    case Committed => Call(s, ref, tried.(writes := a.writes + [WriteEntry(x.task, x.key, x.reply)])).(db := written)
    case Refused => Call(s, ref, tried)
    case Lost(committed) => Call(s, ref, tried.(uncertain := true)).(db := if committed then written else s.db)
  }

  function ApplyRecord(s: System, ref: AttemptRef, a: Attempt, result: CallResult): System {
    var written := RecordTx(s.db, ref, a.hits, StatsRow(a));
    var stopped := a.(pc := Stopping(ClassUnavailable));
    match result
    case Committed => Call(s, ref, a.(recorded := true, pc := Recorded)).(db := written)
    case Refused => Call(s, ref, stopped)
    case Lost(committed) => Call(s, ref, stopped.(uncertain := true)).(db := if committed then written else s.db)
  }

  /** seal's Checkpoint: compare under the job lock and, when they match, sign. A stage that stopped
      for its own reason keeps that error whatever the seal does. */
  function ApplyCheckpoint(s: System, ref: AttemptRef, a: Attempt, seal: SealResult): System
    requires a.pc.Recorded? || a.pc.Stopping?
  {
    var completing := a.pc.Recorded?;
    var cause := if completing then ClassUnavailable else a.pc.cause;
    if seal.Unreachable? then Call(s, ref, a.(pc := Failed(cause)))
    else if StoredManifest(s.db, ref) != Expected(ref, a) then
      var error := if completing && !a.uncertain then ClassCorrupt else cause;
      Call(s, ref, a.(pc := Failed(error)))
    else
      Call(s, ref, a.(pc := if seal.Signs? then Signed(completing, cause) else Failed(cause)))
        .(signatures := s.signatures + [Signature(ref, Expected(ref, a))])
  }

  /** A stage that sealed persists the output that names its attempt; one without a cache names none. */
  function Persisted(a: Attempt): Pc {
    Completed(if a.pc.Sealed? then a.pc.named else "")
  }

  function ApplyFor(s: System, step: Step, ref: AttemptRef, a: Attempt): System
    requires EnabledFor(s, step, ref, a)
  {
    match step
    case AskProducers(_, batch) => Call(s, ref, a.(pc := Asked(batch, ProducersOf(s.db, batch))))
    case LoadCheckpoints(_) =>
      var unverified := a.pc.producers - a.verified;
      if CheckpointsCorrupt(s.storage, ref.analyzer, unverified) then Call(s, ref, a.(pc := Failed(ClassCorrupt)))
      else Call(s, ref, a.(verified := a.verified + unverified, pc := Loaded(a.pc.batch, a.pc.producers),
                           signed := a.signed + VerifiedCheckpoints(s.storage, ref.analyzer, unverified)))
    case ReadSnapshot(_) => Call(s, ref, AfterSnapshot(a, ref.analyzer, s.db))
    case LookupUnavailable(_) => Call(s, ref, a.(pc := Failed(ClassUnavailable)))
    case FinishLookup(_) => Update(s, ref, a.(pc := Collecting, hits := HitEntries(a.plan, a.found)))
    case Receive(_, task, reply) => s.(answers := s.answers + {Answer(ref, task, a.plan[task], reply)})
    case Put(_, x, result) => ApplyPut(s, ref, a, x, result)
    case RecordStage(_, result) => ApplyRecord(s, ref, a, result)
    case Stop(_) => Update(s, ref, a.(pc := Stopping(ClassStage)))
    case GiveUp(_) => Update(s, ref, a.(pc := Failed(a.pc.cause)))
    case Checkpoint(_, seal) => ApplyCheckpoint(s, ref, a, seal)
    case StoreCheckpoint(_, succeeds) =>
      if succeeds then
        Call(s, ref, a.(pc := if a.pc.completing then Sealed(ref.attempt) else Failed(a.pc.cause)))
          .(storage := s.storage[ref := Bound(ref, Expected(ref, a))], stored := s.stored + {ref})
      else Call(s, ref, a.(pc := Failed(a.pc.cause)))
    case Persist(_, succeeds) => Update(s, ref, a.(pc := if succeeds then Persisted(a) else Failed(ClassStage)))
  }

  function Apply(s: System, step: Step): System
    requires Enabled(s, step)
  {
    match step
    case Start(ref, mode, plan, total, preBuilt) =>
      Update(s, ref, Attempt(mode, plan, total, preBuilt, Ready, plan.Values, {}, map[], map[], {}, {}, [], false, false))
    case TamperDatabase(db) => s.(db := db)
    case TamperStorage(storage) => s.(storage := storage)
    case _ => ApplyFor(s, step, step.ref, s.attempts[step.ref])
  }

  /** A run from the empty system. */
  ghost predicate IsRun(states: seq<System>, steps: seq<Step>) {
    && |states| == |steps| + 1
    && states[0] == Initial
    && forall i :: 0 <= i < |steps| ==> Enabled(states[i], steps[i]) && states[i + 1] == Apply(states[i], steps[i])
  }

  // ---- what every step keeps ----

  /** A reply that some honest attempt received for exactly the request `key` names, from the model and
      deployment `key` was built with. */
  ghost predicate Genuine(s: System, key: Key, reply: Reply) {
    && Storable(key, reply)
    && exists x :: x in s.answers && x.key == key && x.reply == reply
  }

  predicate Frozen(pc: Pc) {
    pc.Signed? || pc.Sealed? || pc.Completed? || pc.Failed?
  }

  predicate InLookup(pc: Pc) {
    pc.Ready? || pc.Asked? || pc.Loaded?
  }

  /** What an attempt stored is what it received itself, for the task it stored it for. */
  ghost predicate WriteOk(s: System, ref: AttemptRef, a: Attempt, e: Entry) {
    && e == WriteEntry(e.task, e.key, e.result) && e.task in a.tried && Storable(e.key, e.result)
    && Answer(ref, e.task, e.key, e.result) in s.answers
  }

  /** The attempt signed a manifest that holds a write of `reply` under `key`. */
  ghost predicate SignedFor(s: System, ref: AttemptRef, key: Key, reply: Reply) {
    exists m :: Signature(ref, m) in s.signatures && Vouches(m, key, reply)
  }

  /** An attempt's record: its writes are genuine and of distinct tasks, and so are its hits. */
  ghost predicate RecordOk(s: System, ref: AttemptRef, a: Attempt) {
    && (forall t :: t in a.plan ==> a.plan[t].analyzer == ref.analyzer)
    && (forall i :: 0 <= i < |a.writes| ==> WriteOk(s, ref, a, a.writes[i]))
    && (forall i, j :: 0 <= i < j < |a.writes| ==> a.writes[i].task != a.writes[j].task)
    && (forall h :: h in a.hits ==> h.role == RoleHit && h.task in a.plan && h.key == a.plan[h.task] && Genuine(s, h.key, h.result))
    && (forall h, h' :: h in a.hits && h' in a.hits && h.task == h'.task ==> h == h')
    && (forall i, h :: 0 <= i < |a.writes| && h in a.hits ==> a.writes[i].task != h.task)
  }

  ghost predicate RowTrusted(s: System, analyzer: string, key: Key, row: Row) {
    Genuine(s, key, row.result) && SignedFor(s, AttemptRef(row.job, analyzer, row.attempt), key, row.result)
  }

  /** What the lookup of an attempt trusts was signed, and every row it found is genuine and was signed by
      the attempt the row names. */
  ghost predicate LookupOk(s: System, ref: AttemptRef, a: Attempt) {
    && (forall r :: r in a.signed ==> r.analyzer == ref.analyzer && Signature(r, a.signed[r]) in s.signatures)
    && (forall k :: k in a.found ==> RowTrusted(s, ref.analyzer, k, a.found[k]))
  }

  /** Where the attempt stands agrees with what it has done. */
  predicate PhaseOk(a: Attempt) {
    && (a.pc.Recorded? || a.pc.Sealed? || (a.pc.Signed? && a.pc.completing) ==> a.recorded)
    && (a.pc.Completed? ==> (Records(a) <==> a.recorded))
    && (a.recorded ==> Records(a) && (a.pc.Recorded? || Frozen(a.pc)))
    && (a.mode.ModeDisabled? ==> a.plan == map[] && (a.pc.Ready? || a.pc.Collecting? || a.pc.Stopping? || a.pc.Completed? || a.pc.Failed?))
    && (a.mode.ModeDisabled? ==> a.writes == [])
    && (InLookup(a.pc) ==> a.writes == [] && a.tried == {} && a.hits == {} && !a.uncertain)
  }

  ghost predicate AttemptOk(s: System, ref: AttemptRef, a: Attempt) {
    RecordOk(s, ref, a) && LookupOk(s, ref, a) && PhaseOk(a)
  }

  /** Every signature is an honest attempt's own frozen record, and no attempt has two. */
  ghost predicate SignaturesOk(s: System) {
    && (forall i :: 0 <= i < |s.signatures| ==>
          var g := s.signatures[i];
          g.ref in s.attempts && Frozen(s.attempts[g.ref].pc) && g.digest == Expected(g.ref, s.attempts[g.ref]))
    && (forall i, j :: 0 <= i < j < |s.signatures| ==> s.signatures[i].ref != s.signatures[j].ref)
    && (forall ref :: ref in s.storage && s.storage[ref].Bound? ==>
          Signature(s.storage[ref].subject, s.storage[ref].digest) in s.signatures)
  }

  /** The order of a stage's end: signed, then stored, then persisted. */
  ghost predicate OrderOk(s: System, ref: AttemptRef, a: Attempt) {
    && (a.pc.Signed? ==> Signature(ref, Expected(ref, a)) in s.signatures)
    && (a.pc.Sealed? || (a.pc.Completed? && Records(a)) ==>
          Signature(ref, Expected(ref, a)) in s.signatures && ref in s.stored)
    && (a.pc.Sealed? ==> a.pc.named == ref.attempt)
    && (a.pc.Completed? ==> a.pc.named == if Records(a) then ref.attempt else "")
    && (a.mode.ModeDisabled? ==> ref !in s.callers)
  }

  ghost predicate AnswersOk(s: System) {
    && (forall x :: x in s.answers ==> x.ref in s.attempts && x.task in s.attempts[x.ref].plan && x.key == s.attempts[x.ref].plan[x.task])
    && (forall x :: x in s.answers ==> !InLookup(s.attempts[x.ref].pc))
    && (forall x, h :: x in s.answers && h in s.attempts[x.ref].hits ==> h.task != x.task)
    && (forall x, y :: x in s.answers && y in s.answers && x.ref == y.ref && x.task == y.task ==> x == y)
    && (forall ref :: ref in s.callers ==> ref in s.attempts)
  }

  ghost predicate Inv(s: System) {
    && SignaturesOk(s)
    && AnswersOk(s)
    && forall ref :: ref in s.attempts ==> AttemptOk(s, ref, s.attempts[ref]) && OrderOk(s, ref, s.attempts[ref])
  }

  /** A signature is of the attempt's own record. */
  lemma SignedIsRecord(s: System, g: Signature)
    requires Inv(s) && g in s.signatures
    ensures g.ref in s.attempts && g.digest == Expected(g.ref, s.attempts[g.ref]) && RecordOk(s, g.ref, s.attempts[g.ref])
  {
    hide RecordOk, LookupOk, PhaseOk, OrderOk, AnswersOk, Expected;
    var i :| 0 <= i < |s.signatures| && s.signatures[i] == g;
    assert AttemptOk(s, g.ref, s.attempts[g.ref]);
  }

  /** A record vouches only for what the attempt received itself and stored. */
  lemma VouchedIsWritten(s: System, ref: AttemptRef, a: Attempt, key: Key, result: Reply)
    requires RecordOk(s, ref, a) && Vouches(Expected(ref, a), key, result)
    ensures exists e :: e in a.writes && e.key == key && e.result == result && WriteOk(s, ref, a, e)
  {
    hide WriteOk, Genuine;
    var e :| e in Expected(ref, a).entries && e.role == RoleWrite && e.key == key && e.result == result;
    assert e !in a.hits;
    assert e in multiset(a.writes);
    var j :| 0 <= j < |a.writes| && a.writes[j] == e;
    assert WriteOk(s, ref, a, a.writes[j]);
  }

  /** A signed manifest vouches only for genuine results. */
  lemma VouchedIsGenuine(s: System, g: Signature, key: Key, result: Reply)
    requires Inv(s) && g in s.signatures && Vouches(g.digest, key, result)
    ensures Genuine(s, key, result)
  {
    hide Inv, RecordOk, Vouches, Expected;
    SignedIsRecord(s, g);
    VouchedIsWritten(s, g.ref, s.attempts[g.ref], key, result);
  }

  lemma HistoryTrusts(s: System, s': System, ref: AttemptRef, a: Attempt)
    requires s.answers <= s'.answers
    requires forall g :: g in s.signatures ==> g in s'.signatures
    requires LookupOk(s, ref, a)
    ensures LookupOk(s', ref, a)
  {
    hide Vouches, Storable;
    forall k | k in a.found ensures RowTrusted(s', ref.analyzer, k, a.found[k]) {
      assert RowTrusted(s, ref.analyzer, k, a.found[k]);
    }
  }

  /** Steps only add history, so an attempt that takes no step keeps its invariant. */
  lemma HistoryKeeps(s: System, s': System, ref: AttemptRef, a: Attempt)
    requires s.answers <= s'.answers
    requires forall g :: g in s.signatures ==> g in s'.signatures
    requires AttemptOk(s, ref, a)
    ensures AttemptOk(s', ref, a)
  {
    HistoryTrusts(s, s', ref, a);
    hide RowTrusted, LookupOk;
    forall i | 0 <= i < |a.writes| ensures WriteOk(s', ref, a, a.writes[i]) {
      assert WriteOk(s, ref, a, a.writes[i]);
    }
  }

  /** A step of one attempt keeps the invariant when it keeps it for that attempt. */
  lemma StepKeeps(s: System, s': System, ref: AttemptRef, a': Attempt)
    requires Inv(s)
    requires s'.attempts == s.attempts[ref := a']
    requires s.answers <= s'.answers && s.stored <= s'.stored && s'.callers <= s.callers + {ref}
    requires forall g :: g in s.signatures ==> g in s'.signatures
    requires AttemptOk(s', ref, a') && OrderOk(s', ref, a')
    requires SignaturesOk(s') && AnswersOk(s')
    ensures Inv(s')
  {
    hide RecordOk, LookupOk, PhaseOk, SignaturesOk, AnswersOk;
    forall r | r in s'.attempts ensures AttemptOk(s', r, s'.attempts[r]) && OrderOk(s', r, s'.attempts[r]) {
      if r != ref { HistoryKeeps(s, s', r, s.attempts[r]); }
    }
  }

  lemma TrustedIsGenuine(s: System, ref: AttemptRef, a: Attempt, k: Key)
    requires Inv(s) && LookupOk(s, ref, a) && a.pc.Loaded?
    requires k in TrustedRows(a, ref.analyzer, s.db)
    ensures RowTrusted(s, ref.analyzer, k, s.db.rows[k])
  {
    hide Inv;
    var row := s.db.rows[k];
    var r := AttemptRef(row.job, ref.analyzer, row.attempt);
    VouchedIsGenuine(s, Signature(r, a.signed[r]), k, row.result);
  }

  /** A move of the pc, of the lookup's locals and of the record's flags keeps the record itself. */
  lemma MoveKeeps(s: System, ref: AttemptRef, a: Attempt, a': Attempt)
    requires AttemptOk(s, ref, a) && LookupOk(s, ref, a') && PhaseOk(a')
    requires a' == a.(pc := a'.pc, todo := a'.todo, verified := a'.verified, signed := a'.signed, found := a'.found,
                      recorded := a'.recorded, uncertain := a'.uncertain)
    ensures AttemptOk(s, ref, a')
  {
    forall i | 0 <= i < |a'.writes| ensures WriteOk(s, ref, a', a'.writes[i]) {
      assert WriteOk(s, ref, a, a.writes[i]);
    }
  }

  /** The signatures stay those of frozen records while a frozen attempt keeps its record. */
  lemma SignaturesKept(s: System, s': System, ref: AttemptRef, a': Attempt)
    requires SignaturesOk(s) && ref in s.attempts
    requires s'.attempts == s.attempts[ref := a'] && s'.signatures == s.signatures && s'.storage == s.storage
    requires var a := s.attempts[ref]; Frozen(a.pc) ==> Frozen(a'.pc) && Expected(ref, a') == Expected(ref, a)
    ensures SignaturesOk(s')
  {
  }

  lemma AnswersKept(s: System, s': System, ref: AttemptRef, a': Attempt)
    requires AnswersOk(s) && ref in s.attempts
    requires s'.attempts == s.attempts[ref := a'] && s'.answers == s.answers && s'.callers <= s.callers + {ref}
    requires a'.plan == s.attempts[ref].plan
    requires var a := s.attempts[ref]; InLookup(a.pc) || (!InLookup(a'.pc) && a'.hits == a.hits)
    ensures AnswersOk(s')
  {
  }

  /** A step that moves one attempt and leaves signatures, answers and storage alone. */
  lemma QuietStepKeeps(s: System, s': System, ref: AttemptRef, a': Attempt)
    requires Inv(s) && ref in s.attempts
    requires s' == s.(db := s'.db, attempts := s.attempts[ref := a'], callers := s'.callers)
    requires s'.callers == s.callers || (s'.callers == s.callers + {ref} && !a'.mode.ModeDisabled?)
    requires AttemptOk(s, ref, a')
    requires var a := s.attempts[ref]; a'.plan == a.plan && a'.mode == a.mode
    requires var a := s.attempts[ref]; Frozen(a.pc) ==> Frozen(a'.pc) && Expected(ref, a') == Expected(ref, a)
    requires var a := s.attempts[ref]; InLookup(a.pc) || (!InLookup(a'.pc) && a'.hits == a.hits)
    requires OrderOk(s, ref, a')
    ensures Inv(s')
  {
    hide AttemptOk, SignaturesOk, AnswersOk, Expected;
    HistoryKeeps(s, s', ref, a');
    SignaturesKept(s, s', ref, a');
    AnswersKept(s, s', ref, a');
    StepKeeps(s, s', ref, a');
  }

  /** What the invariant says of one attempt. */
  lemma InvOf(s: System, ref: AttemptRef)
    requires Inv(s) && ref in s.attempts
    ensures AttemptOk(s, ref, s.attempts[ref]) && PhaseOk(s.attempts[ref]) && OrderOk(s, ref, s.attempts[ref])
    ensures LookupOk(s, ref, s.attempts[ref])
    ensures SignaturesOk(s) && AnswersOk(s)
  {
  }

  /** A move of the pc and of the record's flags. */
  lemma PcMoveKeeps(s: System, ref: AttemptRef, a': Attempt)
    requires Inv(s) && ref in s.attempts && PhaseOk(a')
    requires a' == s.attempts[ref].(pc := a'.pc, recorded := a'.recorded, uncertain := a'.uncertain)
    ensures AttemptOk(s, ref, a')
  {
    InvOf(s, ref);
    MoveKeeps(s, ref, s.attempts[ref], a');
  }

  lemma TrustedRowsAreGenuine(s: System, ref: AttemptRef, a: Attempt)
    requires Inv(s) && LookupOk(s, ref, a) && a.pc.Loaded?
    ensures forall k :: k in TrustedRows(a, ref.analyzer, s.db) ==> RowTrusted(s, ref.analyzer, k, TrustedRows(a, ref.analyzer, s.db)[k])
  {
    forall k | k in TrustedRows(a, ref.analyzer, s.db)
      ensures RowTrusted(s, ref.analyzer, k, TrustedRows(a, ref.analyzer, s.db)[k])
    {
      TrustedIsGenuine(s, ref, a, k);
    }
  }

  lemma FoundGrows(s: System, ref: AttemptRef, a: Attempt, pc: Pc, todo: set<Key>, rows: map<Key, Row>)
    requires AttemptOk(s, ref, a) && a.pc.Loaded? && pc.Ready?
    requires forall k :: k in rows ==> RowTrusted(s, ref.analyzer, k, rows[k])
    ensures AttemptOk(s, ref, a.(pc := pc, todo := todo, found := a.found + rows))
  {
    MoveKeeps(s, ref, a, a.(pc := pc, todo := todo, found := a.found + rows));
  }

  lemma SnapshotKeeps(s: System, ref: AttemptRef, a: Attempt)
    requires Inv(s) && AttemptOk(s, ref, a) && a.pc.Loaded?
    ensures AttemptOk(s, ref, AfterSnapshot(a, ref.analyzer, s.db))
  {
    hide Inv, RecordOk, BatchVerdict, BatchSigned, RowTrusted, TrustedRows;
    var rows := TrustedRows(a, ref.analyzer, s.db);
    TrustedRowsAreGenuine(s, ref, a);
    FoundGrows(s, ref, a, Ready, a.todo - a.pc.batch, rows);
    FoundGrows(s, ref, a, Ready, a.todo - a.pc.batch, map[]);
    assert a.found + map[] == a.found;
    MoveKeeps(s, ref, a, a.(pc := Failed(ClassCorrupt)));
    MoveKeeps(s, ref, a, a.(pc := Failed(ClassUnavailable)));
  }

  lemma LoadedIsSigned(s: System, analyzer: string, jobs: set<string>)
    requires Inv(s)
    ensures forall r :: r in VerifiedCheckpoints(s.storage, analyzer, jobs) ==>
              r.analyzer == analyzer && Signature(r, VerifiedCheckpoints(s.storage, analyzer, jobs)[r]) in s.signatures
  {
  }

  lemma AskKeeps(s: System, ref: AttemptRef, batch: set<Key>)
    requires Inv(s) && Enabled(s, AskProducers(ref, batch))
    ensures Inv(Apply(s, AskProducers(ref, batch)))
  {
    hide Inv, AttemptOk, SignaturesOk, AnswersOk;
    InvOf(s, ref);
    var a' := s.attempts[ref].(pc := Asked(batch, ProducersOf(s.db, batch)));
    PcMoveKeeps(s, ref, a');
    QuietStepKeeps(s, Call(s, ref, a'), ref, a');
  }

  lemma LoadKeeps(s: System, ref: AttemptRef)
    requires Inv(s) && Enabled(s, LoadCheckpoints(ref))
    ensures Inv(Apply(s, LoadCheckpoints(ref)))
  {
    hide Inv, RecordOk, SignaturesOk, AnswersOk;
    InvOf(s, ref);
    var a := s.attempts[ref];
    var s' := Apply(s, LoadCheckpoints(ref));
    var a' := s'.attempts[ref];
    LoadedIsSigned(s, ref.analyzer, a.pc.producers - a.verified);
    MoveKeeps(s, ref, a, a');
    QuietStepKeeps(s, s', ref, a');
  }

  lemma ReadKeeps(s: System, ref: AttemptRef)
    requires Inv(s) && Enabled(s, ReadSnapshot(ref))
    ensures Inv(Apply(s, ReadSnapshot(ref)))
  {
    hide Inv, AttemptOk, BatchVerdict, BatchSigned, TrustedRows, SignaturesOk, AnswersOk, LookupOk;
    InvOf(s, ref);
    var a := s.attempts[ref];
    var a' := AfterSnapshot(a, ref.analyzer, s.db);
    SnapshotKeeps(s, ref, a);
    assert (a'.pc.Ready? || a'.pc.Failed?) && a'.plan == a.plan && a'.mode == a.mode;
    QuietStepKeeps(s, Call(s, ref, a'), ref, a');
  }

  lemma UnavailableKeeps(s: System, ref: AttemptRef)
    requires Inv(s) && Enabled(s, LookupUnavailable(ref))
    ensures Inv(Apply(s, LookupUnavailable(ref)))
  {
    hide Inv, AttemptOk, SignaturesOk, AnswersOk;
    InvOf(s, ref);
    var a' := s.attempts[ref].(pc := Failed(ClassUnavailable));
    PcMoveKeeps(s, ref, a');
    QuietStepKeeps(s, Call(s, ref, a'), ref, a');
  }

  /** The hits are genuine and of distinct tasks because the rows found are. */
  lemma HitsAreOk(s: System, ref: AttemptRef, a: Attempt)
    requires AttemptOk(s, ref, a) && a.pc.Ready?
    ensures AttemptOk(s, ref, a.(pc := Collecting, hits := HitEntries(a.plan, a.found)))
  {
    hide Genuine, SignedFor, WriteOk;
    forall k | k in a.found ensures Genuine(s, k, a.found[k].result) { assert RowTrusted(s, ref.analyzer, k, a.found[k]); }
  }

  lemma FinishKeeps(s: System, ref: AttemptRef)
    requires Inv(s) && Enabled(s, FinishLookup(ref))
    ensures Inv(Apply(s, FinishLookup(ref)))
  {
    hide Inv, SignaturesOk, AnswersOk, AttemptOk, LookupOk;
    InvOf(s, ref);
    var a := s.attempts[ref];
    var a' := a.(pc := Collecting, hits := HitEntries(a.plan, a.found));
    HitsAreOk(s, ref, a);
    QuietStepKeeps(s, Update(s, ref, a'), ref, a');
  }

  lemma AnswerAdded(s: System, ref: AttemptRef, task: string, reply: Reply)
    requires AnswersOk(s) && Enabled(s, Receive(ref, task, reply))
    ensures AnswersOk(Apply(s, Receive(ref, task, reply)))
  {
  }

  lemma ReceiveEffect(s: System, ref: AttemptRef, task: string, reply: Reply)
    requires Enabled(s, Receive(ref, task, reply))
    ensures Apply(s, Receive(ref, task, reply)) == s.(answers := s.answers + {Answer(ref, task, s.attempts[ref].plan[task], reply)})
  {
  }

  lemma ReceiveKeeps(s: System, ref: AttemptRef, task: string, reply: Reply)
    requires Inv(s) && Enabled(s, Receive(ref, task, reply))
    ensures Inv(Apply(s, Receive(ref, task, reply)))
  {
    AnswerAdded(s, ref, task, reply);
    ReceiveEffect(s, ref, task, reply);
    hide Inv, AttemptOk, SignaturesOk, AnswersOk, Expected, Apply;
    InvOf(s, ref);
    var a := s.attempts[ref];
    var s' := Apply(s, Receive(ref, task, reply));
    assert s'.attempts == s.attempts[ref := a];
    HistoryKeeps(s, s', ref, a);
    SignaturesKept(s, s', ref, a);
    StepKeeps(s, s', ref, a);
  }

  /** One more accepted write. */
  lemma WriteKeeps(s: System, ref: AttemptRef, a: Attempt, x: Answer, a': Attempt)
    requires AttemptOk(s, ref, a) && a.pc.Collecting? && Records(a)
    requires x in s.answers && x.ref == ref && x.task !in a.tried && Storable(x.key, x.reply)
    requires forall h :: h in a.hits ==> h.task != x.task
    requires a' == a.(tried := a.tried + {x.task}, writes := a'.writes, uncertain := a'.uncertain)
    requires a'.writes == a.writes || a'.writes == a.writes + [WriteEntry(x.task, x.key, x.reply)]
    ensures AttemptOk(s, ref, a')
  {
    forall i | 0 <= i < |a'.writes| ensures WriteOk(s, ref, a', a'.writes[i]) {
      if i < |a.writes| { assert WriteOk(s, ref, a, a.writes[i]); }
    }
    forall i, j | 0 <= i < j < |a'.writes| ensures a'.writes[i].task != a'.writes[j].task {
      assert WriteOk(s, ref, a, a.writes[i]);
    }
  }

  lemma AnswerIsNoHit(s: System, x: Answer)
    requires AnswersOk(s) && x in s.answers
    ensures forall h :: h in s.attempts[x.ref].hits ==> h.task != x.task
  {
  }

  lemma PutKeeps(s: System, ref: AttemptRef, x: Answer, result: CallResult)
    requires Inv(s) && Enabled(s, Put(ref, x, result))
    ensures Inv(Apply(s, Put(ref, x, result)))
  {
    hide Inv, AttemptOk, SignaturesOk, AnswersOk, LookupOk, PutTx;
    InvOf(s, ref);
    var a := s.attempts[ref];
    assert forall h :: h in a.hits ==> h.task != x.task by { AnswerIsNoHit(s, x); }
    var s' := ApplyPut(s, ref, a, x, result);
    var a' := s'.attempts[ref];
    WriteKeeps(s, ref, a, x, a');
    QuietStepKeeps(s, s', ref, a');
  }

  lemma RecordKeeps(s: System, ref: AttemptRef, result: CallResult)
    requires Inv(s) && Enabled(s, RecordStage(ref, result))
    ensures Inv(Apply(s, RecordStage(ref, result)))
  {
    hide Inv, AttemptOk, SignaturesOk, AnswersOk, LookupOk, RecordTx, StatsRow;
    InvOf(s, ref);
    var s' := ApplyRecord(s, ref, s.attempts[ref], result);
    var a' := s'.attempts[ref];
    PcMoveKeeps(s, ref, a');
    QuietStepKeeps(s, s', ref, a');
  }

  lemma StopKeeps(s: System, ref: AttemptRef, step: Step)
    requires Inv(s) && Enabled(s, step)
    requires step == Stop(ref) || step == GiveUp(ref)
    ensures Inv(Apply(s, step))
  {
    hide Inv, AttemptOk, SignaturesOk, AnswersOk;
    InvOf(s, ref);
    var a := s.attempts[ref];
    var a' := a.(pc := if step.Stop? then Stopping(ClassStage) else Failed(a.pc.cause));
    PcMoveKeeps(s, ref, a');
    QuietStepKeeps(s, Update(s, ref, a'), ref, a');
  }

  lemma SignatureAdded(s: System, s': System, ref: AttemptRef, a': Attempt)
    requires SignaturesOk(s) && ref in s.attempts && !Frozen(s.attempts[ref].pc) && Frozen(a'.pc)
    requires s'.attempts == s.attempts[ref := a'] && s'.storage == s.storage
    requires s'.signatures == s.signatures + [Signature(ref, Expected(ref, a'))]
    ensures SignaturesOk(s')
  {
  }

  lemma ExpectedKept(ref: AttemptRef, a: Attempt, pc: Pc)
    ensures Expected(ref, a.(pc := pc)) == Expected(ref, a)
  {
  }

  lemma SignKeeps(s: System, s': System, ref: AttemptRef, a': Attempt)
    requires Inv(s) && ref in s.attempts && !Frozen(s.attempts[ref].pc) && !InLookup(s.attempts[ref].pc)
    requires a' == s.attempts[ref].(pc := a'.pc) && (a'.pc.Signed? || a'.pc.Failed?) && PhaseOk(a') && !a'.mode.ModeDisabled?
    requires s' == s.(attempts := s.attempts[ref := a'], callers := s.callers + {ref},
                      signatures := s.signatures + [Signature(ref, Expected(ref, a'))])
    ensures Inv(s')
  {
    hide Inv, AttemptOk, SignaturesOk, AnswersOk, Expected, LookupOk, PhaseOk;
    InvOf(s, ref);
    PcMoveKeeps(s, ref, a');
    HistoryKeeps(s, s', ref, a');
    SignatureAdded(s, s', ref, a');
    AnswersKept(s, s', ref, a');
    StepKeeps(s, s', ref, a');
  }

  lemma CheckpointKeeps(s: System, ref: AttemptRef, seal: SealResult)
    requires Inv(s) && Enabled(s, Checkpoint(ref, seal))
    ensures Inv(Apply(s, Checkpoint(ref, seal)))
  {
    hide Inv, AttemptOk, SignaturesOk, AnswersOk, Expected, StoredManifest, LookupOk;
    InvOf(s, ref);
    var s' := ApplyCheckpoint(s, ref, s.attempts[ref], seal);
    var a' := s'.attempts[ref];
    ExpectedKept(ref, s.attempts[ref], a'.pc);
    if s'.signatures == s.signatures {
      PcMoveKeeps(s, ref, a');
      QuietStepKeeps(s, s', ref, a');
    } else {
      SignKeeps(s, s', ref, a');
    }
  }

  lemma EnvelopeStored(s: System, s': System, ref: AttemptRef, a': Attempt)
    requires SignaturesOk(s) && ref in s.attempts && Frozen(s.attempts[ref].pc) && Frozen(a'.pc)
    requires Expected(ref, a') == Expected(ref, s.attempts[ref])
    requires Signature(ref, Expected(ref, a')) in s.signatures
    requires s'.attempts == s.attempts[ref := a'] && s'.signatures == s.signatures
    requires s'.storage == s.storage || s'.storage == s.storage[ref := Bound(ref, Expected(ref, a'))]
    ensures SignaturesOk(s')
  {
  }

  lemma StoreKeeps(s: System, ref: AttemptRef, succeeds: bool)
    requires Inv(s) && Enabled(s, StoreCheckpoint(ref, succeeds))
    ensures Inv(Apply(s, StoreCheckpoint(ref, succeeds)))
  {
    hide Inv, AttemptOk, SignaturesOk, AnswersOk;
    InvOf(s, ref);
    var s' := Apply(s, StoreCheckpoint(ref, succeeds));
    var a' := s'.attempts[ref];
    PcMoveKeeps(s, ref, a');
    assert Expected(ref, a') == Expected(ref, s.attempts[ref]);
    HistoryKeeps(s, s', ref, a');
    EnvelopeStored(s, s', ref, a');
    AnswersKept(s, s', ref, a');
    StepKeeps(s, s', ref, a');
  }

  lemma PersistKeeps(s: System, ref: AttemptRef, succeeds: bool)
    requires Inv(s) && Enabled(s, Persist(ref, succeeds))
    ensures Inv(Apply(s, Persist(ref, succeeds)))
  {
    hide Inv, AttemptOk, SignaturesOk, AnswersOk;
    InvOf(s, ref);
    var a' := s.attempts[ref].(pc := if succeeds then Persisted(s.attempts[ref]) else Failed(ClassStage));
    PcMoveKeeps(s, ref, a');
    assert Expected(ref, a') == Expected(ref, s.attempts[ref]);
    QuietStepKeeps(s, Update(s, ref, a'), ref, a');
  }

  lemma StartSigns(s: System, step: Step)
    requires Inv(s) && step.Start? && Enabled(s, step)
    ensures SignaturesOk(Apply(s, step)) && AnswersOk(Apply(s, step))
    ensures OrderOk(Apply(s, step), step.ref, Apply(s, step).attempts[step.ref])
  {
    hide AttemptOk;
  }

  lemma StartKeeps(s: System, step: Step)
    requires Inv(s) && step.Start? && Enabled(s, step)
    ensures Inv(Apply(s, step))
  {
    hide Inv, SignaturesOk, AnswersOk;
    var s' := Apply(s, step);
    StartSigns(s, step);
    StepKeeps(s, s', step.ref, s'.attempts[step.ref]);
  }

  lemma TamperEffect(s: System, step: Step)
    requires SignaturesOk(s) && Enabled(s, step) && (step.TamperDatabase? || step.TamperStorage?)
    ensures var s' := Apply(s, step);
            s' == s.(db := s'.db, storage := s'.storage) && SignaturesOk(s')
  {
    hide Expected, Frozen;
  }

  lemma TamperKeeps(s: System, step: Step)
    requires Inv(s) && Enabled(s, step)
    requires step.TamperDatabase? || step.TamperStorage?
    ensures Inv(Apply(s, step))
  {
    hide RecordOk, LookupOk, PhaseOk, Expected, SignaturesOk, Apply, Enabled;
    TamperEffect(s, step);
    var s' := Apply(s, step);
    forall r | r in s'.attempts ensures AttemptOk(s', r, s'.attempts[r]) {
      HistoryKeeps(s, s', r, s.attempts[r]);
    }
  }

  /** Every step, the adversary's included, keeps the invariant. */
  lemma InvKept(s: System, step: Step)
    requires Inv(s) && Enabled(s, step)
    ensures Inv(Apply(s, step))
  {
    hide Inv, Enabled, Apply;
    match step
    case Start(_, _, _, _, _) => StartKeeps(s, step);
    case AskProducers(ref, batch) => AskKeeps(s, ref, batch);
    case LoadCheckpoints(ref) => LoadKeeps(s, ref);
    case ReadSnapshot(ref) => ReadKeeps(s, ref);
    case LookupUnavailable(ref) => UnavailableKeeps(s, ref);
    case FinishLookup(ref) => FinishKeeps(s, ref);
    case Receive(ref, task, reply) => ReceiveKeeps(s, ref, task, reply);
    case Put(ref, x, result) => PutKeeps(s, ref, x, result);
    case RecordStage(ref, result) => RecordKeeps(s, ref, result);
    case Stop(ref) => StopKeeps(s, ref, step);
    case GiveUp(ref) => StopKeeps(s, ref, step);
    case Checkpoint(ref, seal) => CheckpointKeeps(s, ref, seal);
    case StoreCheckpoint(ref, succeeds) => StoreKeeps(s, ref, succeeds);
    case Persist(ref, succeeds) => PersistKeeps(s, ref, succeeds);
    case TamperDatabase(_) => TamperKeeps(s, step);
    case TamperStorage(_) => TamperKeeps(s, step);
  }

  lemma {:induction false} InvAlong(states: seq<System>, steps: seq<Step>, i: nat)
    requires IsRun(states, steps) && i < |states|
    ensures Inv(states[i])
  {
    if i > 0 {
      InvAlong(states, steps, i - 1);
      InvKept(states[i - 1], steps[i - 1]);
    }
  }

  /** Cache transparency. In every run of any number of jobs, whatever the adversary writes into the
      database and the storage between the steps, every cached result a task gets is one that the attempt
      its row names received itself, for a task of its own with exactly the request and observed model of
      the key, stored under that key, and signed as part of its record. An edited row is therefore never
      used: it can only be a miss or a corrupt stage. */
  lemma CacheTransparency(states: seq<System>, steps: seq<Step>, i: nat, ref: AttemptRef, task: string)
    requires IsRun(states, steps) && i < |states|
    requires ref in states[i].attempts
    requires var a := states[i].attempts[ref]; task in a.plan && a.plan[task] in a.found
    ensures var s := states[i];
            var key := s.attempts[ref].plan[task];
            var row := s.attempts[ref].found[key];
            var producer := AttemptRef(row.job, ref.analyzer, row.attempt);
            && row.result.model == key.observed && row.result.deployment == key.deployment
            && producer in s.attempts
            && Signature(producer, Expected(producer, s.attempts[producer])) in s.signatures
            && exists t :: WriteEntry(t, key, row.result) in s.attempts[producer].writes &&
                           t in s.attempts[producer].plan && s.attempts[producer].plan[t] == key &&
                           Answer(producer, t, key, row.result) in s.answers
  {
    var s := states[i];
    InvAlong(states, steps, i);
    hide IsRun, Inv, Expected, RecordOk, Vouches, AttemptOk, OrderOk, PhaseOk, SignaturesOk;
    InvOf(s, ref);
    var key := s.attempts[ref].plan[task];
    var row := s.attempts[ref].found[key];
    var producer := AttemptRef(row.job, ref.analyzer, row.attempt);
    assert RowTrusted(s, ref.analyzer, key, row);
    var m :| Signature(producer, m) in s.signatures && Vouches(m, key, row.result);
    SignedIsRecord(s, Signature(producer, m));
    VouchedIsWritten(s, producer, s.attempts[producer], key, row.result);
  }

  /** Seal before persist. A stage that kept records and completed was recorded, its whole record was
      signed, and its checkpoint was stored, and its output names that attempt; no attempt is ever signed
      twice; and an attempt in disabled mode made no store call and names none, whatever became of it. */
  lemma SealBeforePersist(states: seq<System>, steps: seq<Step>, i: nat, ref: AttemptRef)
    requires IsRun(states, steps) && i < |states| && ref in states[i].attempts
    ensures var s, a := states[i], states[i].attempts[ref];
            && (a.pc.Completed? && Records(a) ==>
                  a.recorded && Signature(ref, Expected(ref, a)) in s.signatures && ref in s.stored && a.pc.named == ref.attempt)
            && (a.mode.ModeDisabled? ==> ref !in s.callers && (a.pc.Completed? ==> a.pc.named == ""))
    ensures forall j, k :: 0 <= j < k < |states[i].signatures| ==> states[i].signatures[j].ref != states[i].signatures[k].ref
  {
    InvAlong(states, steps, i);
    InvOf(states[i], ref);
  }

  /** A sequence of entries of distinct tasks holds each entry once. */
  lemma {:induction false} DistinctTasks(writes: seq<Entry>, e: Entry)
    requires forall i, j :: 0 <= i < j < |writes| ==> writes[i].task != writes[j].task
    ensures multiset(writes)[e] == if e in writes then 1 else 0
  {
    if writes != [] {
      var last := |writes| - 1;
      assert writes == writes[..last] + [writes[last]];
      DistinctTasks(writes[..last], e);
      assert writes[last] !in writes[..last];
      assert e in writes <==> e in writes[..last] || e == writes[last];
    }
  }

  lemma RecordNamesTasksOnce(s: System, ref: AttemptRef, a: Attempt, e: Entry, e': Entry)
    requires RecordOk(s, ref, a)
    requires e in Expected(ref, a).entries && e' in Expected(ref, a).entries && e.task == e'.task
    ensures e == e' && Expected(ref, a).entries[e] == 1
  {
    hide Genuine, WriteOk;
    DistinctTasks(a.writes, e);
    DistinctTasks(a.writes, e');
    if e in a.writes {
      var i :| 0 <= i < |a.writes| && a.writes[i] == e;
      assert e !in a.hits && e' !in a.hits;
      assert e' in a.writes;
    } else {
      assert e in a.hits;
      assert e' !in a.writes;
    }
  }

  /** Each attempt's manifest names a task at most once: no task is written twice, hit twice, or both. */
  lemma ManifestNamesTasksOnce(states: seq<System>, steps: seq<Step>, i: nat, ref: AttemptRef, e: Entry, e': Entry)
    requires IsRun(states, steps) && i < |states| && ref in states[i].attempts
    requires var m := Expected(ref, states[i].attempts[ref]); e in m.entries && e' in m.entries && e.task == e'.task
    ensures e == e' && Expected(ref, states[i].attempts[ref]).entries[e] == 1
  {
    InvAlong(states, steps, i);
    assert RecordOk(states[i], ref, states[i].attempts[ref]) by { InvOf(states[i], ref); }
    hide Inv, RecordOk, Expected, IsRun;
    RecordNamesTasksOnce(states[i], ref, states[i].attempts[ref], e, e');
  }
}
