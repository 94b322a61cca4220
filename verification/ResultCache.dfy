/** The result cache's store contract: attempt manifests, the rows a snapshot reads,
    and the verification of a cached row against signed checkpoints.

    Digests and cache keys are modelled by the values they digest, so they are injective
    by construction: a manifest stands for its own digest, a reply for its own result
    digest, and a Key for the hash of its fields. */
module ResultCache {

  /** One stage run of one job's analyzer. */
  datatype AttemptRef = AttemptRef(job: string, analyzer: string, attempt: string)

  /** One exact LLM request together with the model the job's probe observed for it. */
  datatype Key = Key(analyzer: string, identity: string, observed: string, deployment: string, revision: string)

  /** A worker's answer: what is stored, reused and digested. */
  datatype Reply = Reply(model: string, deployment: string, body: string)

  datatype Role = RoleHit | RoleWrite

  datatype Entry = Entry(task: string, role: Role, key: Key, result: Reply, producer: string)

  datatype Stats = Stats(tasks: nat, hits: nat, dispatched: nat)

  /** Everything one attempt recorded. The entries are a multiset because the digest sorts them. */
  datatype Manifest = Manifest(ref: AttemptRef, entries: multiset<Entry>, stats: seq<Stats>)

  /** The cached row under one key: the result and the attempt that stored it. */
  datatype Row = Row(result: Reply, job: string, attempt: string)

  /** llm_result_cache, job_cache_entries (a set: its primary key is the whole row) and job_cache_stats. */
  datatype Database = Database(
    rows: map<Key, Row>,
    entries: map<AttemptRef, set<Entry>>,
    stats: map<AttemptRef, seq<Stats>>)

  const EmptyDatabase := Database(map[], map[], map[])

  function RowRef(key: Key, row: Row): AttemptRef {
    AttemptRef(row.job, key.analyzer, row.attempt)
  }

  function EntriesOf(db: Database, ref: AttemptRef): set<Entry> {
    if ref in db.entries then db.entries[ref] else {}
  }

  function StatsOf(db: Database, ref: AttemptRef): seq<Stats> {
    if ref in db.stats then db.stats[ref] else []
  }

  /** The manifest of `ref` as the database holds it now. */
  function StoredManifest(db: Database, ref: AttemptRef): Manifest {
    Manifest(ref, multiset(EntriesOf(db, ref)), StatsOf(db, ref))
  }

  function WriteEntry(task: string, key: Key, reply: Reply): Entry {
    Entry(task, RoleWrite, key, reply, "")
  }

  /** One Put transaction: the row under the key and the job's write entry, together. */
  function PutTx(db: Database, ref: AttemptRef, task: string, key: Key, reply: Reply): Database {
    db.(rows := db.rows[key := Row(reply, ref.job, ref.attempt)],
        entries := db.entries[ref := EntriesOf(db, ref) + {WriteEntry(task, key, reply)}])
  }

  /** One RecordStage transaction: the hit entries and one more stats row, together. */
  function RecordTx(db: Database, ref: AttemptRef, hits: set<Entry>, stats: Stats): Database {
    db.(entries := db.entries[ref := EntriesOf(db, ref) + hits],
        stats := db.stats[ref := StatsOf(db, ref) + [stats]])
  }

  /** DecodeResult accepts a stored result that names a model. */
  predicate Decodes(reply: Reply) {
    reply.model != ""
  }

  // ---- checkpoints in object storage ----

  /** A stored checkpoint: signed by a key the daemon does not trust, failing verification under
      the trusted key, or verified and binding a subject to a manifest digest. */
  datatype Envelope = UntrustedKey | BadSignature | Bound(subject: AttemptRef, digest: Manifest)

  type Checkpoints = map<AttemptRef, Envelope>

  /** A checkpoint Verified reports as corrupt: it fails verification, or it was signed for another attempt. */
  predicate BadCheckpoint(cps: Checkpoints, ref: AttemptRef)
    requires ref in cps
  {
    cps[ref].BadSignature? || (cps[ref].Bound? && cps[ref].subject != ref)
  }

  predicate Covers(ref: AttemptRef, analyzer: string, jobs: set<string>) {
    ref.analyzer == analyzer && ref.job in jobs
  }

  /** Verified fails as corrupt when one checkpoint of the producers' is bad. */
  predicate CheckpointsCorrupt(cps: Checkpoints, analyzer: string, jobs: set<string>) {
    exists ref :: ref in cps && Covers(ref, analyzer, jobs) && BadCheckpoint(cps, ref)
  }

  /** The attempts of the producers whose checkpoint verifies, each with the digest it signs. */
  function VerifiedCheckpoints(cps: Checkpoints, analyzer: string, jobs: set<string>): map<AttemptRef, Manifest> {
    map ref | ref in cps && Covers(ref, analyzer, jobs) && cps[ref].Bound? && cps[ref].subject == ref :: cps[ref].digest
  }

  // ---- snapshots ----

  datatype Snapshot = Snapshot(analyzer: string, hits: map<Key, Row>, manifests: map<AttemptRef, Manifest>)

  /** The jobs that stored the rows under `keys`. */
  function ProducersOf(db: Database, keys: set<Key>): set<string> {
    set k | k in keys && k in db.rows :: db.rows[k].job
  }

  /** One REPEATABLE READ snapshot: the rows under `keys`, and the manifest of every requested
      attempt whose job stored one of them. */
  function TakeSnapshot(db: Database, analyzer: string, keys: set<Key>, refs: set<AttemptRef>): Snapshot {
    Snapshot(analyzer,
             map k | k in keys && k in db.rows :: db.rows[k],
             map ref | ref in refs && ref.job in ProducersOf(db, keys) :: StoredManifest(db, ref))
  }

  datatype Verdict = Trusted(row: Row) | Miss | Corrupt | Misuse

  /** The manifest holds a write of `result` under `key`. */
  predicate Vouches(m: Manifest, key: Key, result: Reply) {
    exists e :: e in m.entries && e.role == RoleWrite && e.key == key && e.result == result
  }

  /** Snapshot.Verify followed by DecodeResult. */
  function Verify(snap: Snapshot, key: Key, signed: map<AttemptRef, Manifest>): Verdict {
    if key !in snap.hits then Miss else
    var row := snap.hits[key];
    if exists ref :: ref in signed && ref.job == row.job && ref.analyzer != snap.analyzer then Misuse else
    var ref := AttemptRef(row.job, snap.analyzer, row.attempt);
    if ref !in signed then Miss
    else if ref !in snap.manifests then Misuse
    else if snap.manifests[ref] != signed[ref] then Corrupt
    else if !Vouches(snap.manifests[ref], key, row.result) then Corrupt
    else if !Decodes(row.result) then Corrupt
    else Trusted(row)
  }

  /** The engine never reaches the branch that logs "bug": with a snapshot that was asked for exactly
      the attempts passed to Verify, all of them of the snapshot's analyzer, Verify reports no misuse. */
  lemma VerifyNeverMisused(db: Database, analyzer: string, keys: set<Key>, signed: map<AttemptRef, Manifest>, key: Key)
    requires forall ref :: ref in signed ==> ref.analyzer == analyzer
    requires key in keys
    ensures !Verify(TakeSnapshot(db, analyzer, keys, signed.Keys), key, signed).Misuse?
  {
    if key in db.rows {
      assert db.rows[key].job in ProducersOf(db, keys);
    }
  }
}
