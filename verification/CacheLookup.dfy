/** lookupCached over one unchanging store: the batched lookup finds what a lookup of every key on
    its own would find, and stops as corrupt in exactly the same cases, whatever the batch size. */
module CacheLookup {
  import opened ResultCache

  datatype LookupResult = Found(rows: map<Key, Row>) | CorruptStage

  /** What the store says of one key, without any batch: only the attempt that stored the row counts. */
  function KeyVerdict(db: Database, cps: Checkpoints, k: Key): Verdict {
    if k !in db.rows then Miss else
    var row := db.rows[k];
    var ref := RowRef(k, row);
    if ref !in cps || !cps[ref].Bound? || cps[ref].subject != ref then Miss
    else if StoredManifest(db, ref) != cps[ref].digest then Corrupt
    else if !Vouches(cps[ref].digest, k, row.result) then Corrupt
    else if !Decodes(row.result) then Corrupt
    else Trusted(row)
  }

  /** The rows of the keys among `keys` that are hits. */
  function Hits(db: Database, cps: Checkpoints, keys: set<Key>): map<Key, Row> {
    map k | k in keys && KeyVerdict(db, cps, k).Trusted? :: db.rows[k]
  }

  predicate AnyCorrupt(db: Database, cps: Checkpoints, keys: set<Key>) {
    exists k :: k in keys && KeyVerdict(db, cps, k).Corrupt?
  }

  /** The lookup of a whole stage, key by key. */
  function LookupEach(db: Database, cps: Checkpoints, analyzer: string, keys: set<Key>): LookupResult {
    if CheckpointsCorrupt(cps, analyzer, ProducersOf(db, keys)) || AnyCorrupt(db, cps, keys) then CorruptStage
    else Found(Hits(db, cps, keys))
  }

  /** A snapshot of any batch, verified against any checkpoints loaded so far that cover the batch's
      producers, says of each key of the batch what the store says of it alone. */
  lemma BatchAgrees(db: Database, cps: Checkpoints, analyzer: string, batch: set<Key>, jobs: set<string>,
                    signed: map<AttemptRef, Manifest>, k: Key)
    requires k in batch && k.analyzer == analyzer
    requires ProducersOf(db, batch) <= jobs
    requires signed == (map ref | ref in VerifiedCheckpoints(cps, analyzer, jobs) && ref.job in ProducersOf(db, batch)
                              :: VerifiedCheckpoints(cps, analyzer, jobs)[ref])
    ensures Verify(TakeSnapshot(db, analyzer, batch, signed.Keys), k, signed) == KeyVerdict(db, cps, k)
  {
    if k in db.rows {
      assert db.rows[k].job in ProducersOf(db, batch);
    }
  }

  /** Loading the producers that were not loaded before gives the checkpoints of all of them. */
  lemma CheckpointsSplit(cps: Checkpoints, analyzer: string, before: set<string>, more: set<string>)
    ensures CheckpointsCorrupt(cps, analyzer, before + more) ==
              (CheckpointsCorrupt(cps, analyzer, before) || CheckpointsCorrupt(cps, analyzer, more - before))
    ensures VerifiedCheckpoints(cps, analyzer, before + more) ==
              VerifiedCheckpoints(cps, analyzer, before) + VerifiedCheckpoints(cps, analyzer, more - before)
  {
  }

  function Elements(keys: seq<Key>): set<Key> {
    set k | k in keys
  }

  /** One more key of the loop over a snapshot's keys. */
  lemma KeyAdds(db: Database, cps: Checkpoints, done: set<Key>, k: Key)
    ensures AnyCorrupt(db, cps, done + {k}) == (AnyCorrupt(db, cps, done) || KeyVerdict(db, cps, k).Corrupt?)
    ensures Hits(db, cps, done + {k}) ==
              if KeyVerdict(db, cps, k).Trusted? then Hits(db, cps, done)[k := db.rows[k]] else Hits(db, cps, done)
  {
    hide KeyVerdict;
  }

  lemma VerdictRow(db: Database, cps: Checkpoints, k: Key)
    ensures k !in db.rows ==> KeyVerdict(db, cps, k).Miss?
    ensures KeyVerdict(db, cps, k).Trusted? ==> k in db.rows && KeyVerdict(db, cps, k).row == db.rows[k]
  {
  }

  /** The loop over one snapshot's keys: the hits it adds, or that one of them is corrupt. */
  method VerifyBatch(ghost db: Database, ghost cps: Checkpoints, snap: Snapshot, batch: seq<Key>, signed: map<AttemptRef, Manifest>)
    returns (rows: map<Key, Row>, corrupt: bool)
    requires snap.hits == (map k | k in Elements(batch) && k in db.rows :: db.rows[k])
    requires forall k :: k in batch ==> Verify(snap, k, signed) == KeyVerdict(db, cps, k)
    ensures corrupt == AnyCorrupt(db, cps, Elements(batch))
    ensures !corrupt ==> rows == Hits(db, cps, Elements(batch))
  {
    hide AnyCorrupt, Hits, KeyVerdict, Verify;
    NothingFound(db, cps);
    assert Elements(batch[..0]) == {};
    rows, corrupt := map[], false;
    for i := 0 to |batch|
      invariant corrupt == AnyCorrupt(db, cps, Elements(batch[..i]))
      invariant rows == Hits(db, cps, Elements(batch[..i]))
    {
      var k := batch[i];
      assert Elements(batch[..i + 1]) == Elements(batch[..i]) + {k};
      KeyAdds(db, cps, Elements(batch[..i]), k);
      VerdictRow(db, cps, k);
      if k in snap.hits {
        match Verify(snap, k, signed)
        case Trusted(row) => rows := rows[k := row];
        case Corrupt => corrupt := true;
        case Miss =>
        case Misuse =>
      }
    }
    assert batch[..|batch|] == batch;
  }

  /** A batch none of whose producers has a verified checkpoint holds misses only. */
  lemma NothingSigned(db: Database, cps: Checkpoints, analyzer: string, batch: set<Key>, jobs: set<string>)
    requires forall k :: k in batch ==> k.analyzer == analyzer
    requires ProducersOf(db, batch) <= jobs
    requires forall ref :: ref in VerifiedCheckpoints(cps, analyzer, jobs) ==> ref.job !in ProducersOf(db, batch)
    ensures !AnyCorrupt(db, cps, batch) && Hits(db, cps, batch) == map[]
  {
    forall k | k in batch ensures KeyVerdict(db, cps, k).Miss? {
      assert k in db.rows ==> db.rows[k].job in ProducersOf(db, batch);
      assert k in db.rows && RowRef(k, db.rows[k]) in cps ==> RowRef(k, db.rows[k]) !in VerifiedCheckpoints(cps, analyzer, jobs);
    }
  }

  /** One batch of lookupCached: load the checkpoints of the producers not loaded before, read the
      snapshot and verify every row in it. */
  method LookupBatch(db: Database, cps: Checkpoints, analyzer: string, batch: seq<Key>, verified: set<string>, signed: map<AttemptRef, Manifest>)
    returns (corrupt: bool, verified': set<string>, signed': map<AttemptRef, Manifest>, rows: map<Key, Row>)
    requires forall k :: k in batch ==> k.analyzer == analyzer
    requires !CheckpointsCorrupt(cps, analyzer, verified) && signed == VerifiedCheckpoints(cps, analyzer, verified)
    ensures verified' == verified + ProducersOf(db, Elements(batch))
    ensures corrupt == (CheckpointsCorrupt(cps, analyzer, verified') || AnyCorrupt(db, cps, Elements(batch)))
    ensures !corrupt ==> signed' == VerifiedCheckpoints(cps, analyzer, verified') && rows == Hits(db, cps, Elements(batch))
  {
    hide CheckpointsCorrupt, AnyCorrupt, Hits, KeyVerdict, Verify, VerifiedCheckpoints;
    var producers := ProducersOf(db, Elements(batch));
    CheckpointsSplit(cps, analyzer, verified, producers);
    var unverified := producers - verified;
    verified', rows := verified + producers, map[];
    corrupt := CheckpointsCorrupt(cps, analyzer, unverified);
    signed' := signed;
    if !corrupt {
      signed' := signed + VerifiedCheckpoints(cps, analyzer, unverified);
      var batchSigned := map ref | ref in signed' && ref.job in producers :: signed'[ref];
      if batchSigned == map[] {
        assert forall ref :: ref in signed' ==> ref !in batchSigned;
        NothingSigned(db, cps, analyzer, Elements(batch), verified');
      } else {
        var snap := TakeSnapshot(db, analyzer, Elements(batch), batchSigned.Keys);
        forall k | k in batch ensures Verify(snap, k, batchSigned) == KeyVerdict(db, cps, k) {
          BatchAgrees(db, cps, analyzer, Elements(batch), verified', batchSigned, k);
        }
        rows, corrupt := VerifyBatch(db, cps, snap, batch, batchSigned);
      }
    }
  }

  /** One more batch: what is found, loaded and corrupt adds up. */
  lemma BatchAdds(db: Database, cps: Checkpoints, done: set<Key>, batch: set<Key>)
    ensures AnyCorrupt(db, cps, done + batch) == (AnyCorrupt(db, cps, done) || AnyCorrupt(db, cps, batch))
    ensures Hits(db, cps, done + batch) == Hits(db, cps, done) + Hits(db, cps, batch)
    ensures ProducersOf(db, done + batch) == ProducersOf(db, done) + ProducersOf(db, batch)
  {
    hide KeyVerdict;
  }

  /** What is corrupt in some of the keys is corrupt in all of them. */
  lemma CorruptStays(db: Database, cps: Checkpoints, analyzer: string, some: set<Key>, all: set<Key>)
    requires some <= all
    requires AnyCorrupt(db, cps, some) || CheckpointsCorrupt(cps, analyzer, ProducersOf(db, some))
    ensures LookupEach(db, cps, analyzer, all) == CorruptStage
  {
    assert some + all == all;
    BatchAdds(db, cps, some, all);
    CheckpointsSplit(cps, analyzer, ProducersOf(db, some), ProducersOf(db, all));
  }

  /** lookupCached: the keys in batches of `batchSize`. */
  method LookupCached(db: Database, cps: Checkpoints, analyzer: string, keys: seq<Key>, batchSize: nat) returns (r: LookupResult)
    requires batchSize >= 1
    requires forall k :: k in keys ==> k.analyzer == analyzer
    ensures r == LookupEach(db, cps, analyzer, Elements(keys))
  {
    hide CheckpointsCorrupt, AnyCorrupt, Hits, ProducersOf, VerifiedCheckpoints;
    var start := 0;
    var verified: set<string> := {};
    var signed: map<AttemptRef, Manifest> := map[];
    var found: map<Key, Row> := map[];
    NothingYet(db, cps, analyzer);
    ghost var done: set<Key> := {};
    while start < |keys|
      invariant 0 <= start
      invariant done == Elements(keys[..if start < |keys| then start else |keys|])
      invariant verified == ProducersOf(db, done) && signed == VerifiedCheckpoints(cps, analyzer, verified)
      invariant !CheckpointsCorrupt(cps, analyzer, verified) && !AnyCorrupt(db, cps, done)
      invariant found == Hits(db, cps, done)
    {
      var end := if start + batchSize < |keys| then start + batchSize else |keys|;
      var batch := keys[start..end];
      assert keys[..end] == keys[..start] + batch;
      BatchAdds(db, cps, done, Elements(batch));
      done := done + Elements(batch);
      var corrupt, rows;
      corrupt, verified, signed, rows := LookupBatch(db, cps, analyzer, batch, verified, signed);
      if corrupt {
        CorruptStays(db, cps, analyzer, done, Elements(keys));
        return CorruptStage;
      }
      found := found + rows;
      start := start + batchSize;
    }
    assert keys[..|keys|] == keys;
    r := Found(found);
  }

  lemma NothingYet(db: Database, cps: Checkpoints, analyzer: string)
    ensures ProducersOf(db, {}) == {} && !CheckpointsCorrupt(cps, analyzer, {}) && VerifiedCheckpoints(cps, analyzer, {}) == map[]
    ensures !AnyCorrupt(db, cps, {}) && Hits(db, cps, {}) == map[]
  {
    NothingFound(db, cps);
  }

  lemma NothingFound(db: Database, cps: Checkpoints)
    ensures !AnyCorrupt(db, cps, {}) && Hits(db, cps, {}) == map[]
  {
  }

  /** Batching refines one lookup: a single snapshot of all the keys, verified against all their
      producers' checkpoints, gives what the batched lookup gives, so every batch size agrees. */
  lemma OneSnapshotSuffices(db: Database, cps: Checkpoints, analyzer: string, keys: set<Key>)
    requires forall k :: k in keys ==> k.analyzer == analyzer
    requires !CheckpointsCorrupt(cps, analyzer, ProducersOf(db, keys))
    ensures var signed := VerifiedCheckpoints(cps, analyzer, ProducersOf(db, keys));
            var snap := TakeSnapshot(db, analyzer, keys, signed.Keys);
            LookupEach(db, cps, analyzer, keys) ==
              if exists k :: k in keys && Verify(snap, k, signed).Corrupt? then CorruptStage
              else Found(map k | k in keys && Verify(snap, k, signed).Trusted? :: db.rows[k])
  {
    hide Verify, KeyVerdict, TakeSnapshot, CheckpointsCorrupt, ProducersOf;
    var signed := VerifiedCheckpoints(cps, analyzer, ProducersOf(db, keys));
    var snap := TakeSnapshot(db, analyzer, keys, signed.Keys);
    forall k | k in keys ensures Verify(snap, k, signed) == KeyVerdict(db, cps, k) {
      BatchAgrees(db, cps, analyzer, keys, ProducersOf(db, keys), signed, k);
    }
  }
}
