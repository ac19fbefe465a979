/** Row ids of an INTEGER PRIMARY KEY table, and which row a scan returns first. */
module RowIds {
  /** Every non-empty set of row ids has a least element. */
  lemma HasLeast(keys: set<nat>)
    requires keys != {}
    ensures exists k :: k in keys && forall j | j in keys :: k <= j
  {
    var x :| x in keys;
    LeastAtMost(keys, x);
  }

  /** Walking down from a key to a smaller one ends at the least key. */
  lemma {:induction false} LeastAtMost(keys: set<nat>, x: nat)
    requires x in keys
    ensures exists k :: k in keys && forall j | j in keys :: k <= j
    decreases x
  {
    if exists y :: y in keys && y < x {
      var y :| y in keys && y < x;
      LeastAtMost(keys, y);
    } else {
      assert forall j | j in keys :: x <= j;
    }
  }

  /** The least row id: the row that `SELECT ... LIMIT 1` returns first from a table
      whose key is its INTEGER PRIMARY KEY (a scan in rowid order). */
  function MinKey(keys: set<nat>): (k: nat)
    requires keys != {}
    ensures k in keys && forall j | j in keys :: k <= j
  {
    HasLeast(keys);
    var k :| k in keys && forall j | j in keys :: k <= j;
    k
  }
}

/** The builder and the validator together: what `sift doctor` reports on the file
    that `sift index` has just written. */
module Pipeline {
  import opened Wrappers
  import opened PyText
  import opened Chunker
  import opened Embedder
  import opened Indexer
  import opened Doctor
  import opened RowIds

  /** What the doctor observes of a file with these contents. A file the builder
      wrote is a database; the FTS count query fails when the FTS table is missing. */
  function Observe(onDisk: bool, tables: set<string>, chunks: map<nat, Chunk>,
                   fts: map<nat, FtsEntry>, embeddings: map<nat, seq<Byte>>,
                   metadata: map<string, string>, normOk: bool, sizeBytes: nat): Snapshot
  {
    Snapshot(
      fileExists := onDisk,
      openable := true,
      tables := tables,
      chunkCount := |chunks|,
      embeddingCount := |embeddings|,
      sample := if embeddings == map[] then None else Some(embeddings[MinKey(embeddings.Keys)]),
      normOk := normOk,
      metadata := metadata,
      fts := if "chunks_fts" in tables then FtsCount(|fts|) else FtsError,
      sizeBytes := sizeBytes)
  }

  /** The tables `build_index` creates, as a set. */
  function SchemaSet(): (ts: set<string>)
    ensures ts == {"chunks", "chunks_fts", "embeddings", "sift_metadata"}
    ensures ts == CoreTables + {"chunks_fts"}
  {
    set t | t in SchemaTables
  }

  lemma EmptyUnion<K, V>(m: map<K, V>)
    ensures map[] + m == m
  {
  }

  /** A new file holds no row a build could clash with. */
  lemma FreshNoClash(n: nat, m: nat)
    ensures NoClash(map[], map[], map[], n, m)
  {
  }

  /** What the doctor observes of a freshly built index of `cs` embedded as `vs`: the
      four tables, one row per chunk in each of `chunks`, `chunks_fts` and
      `embeddings`, the first vector as the sample, and the model's name. */
  lemma ObserveBuilt(cs: seq<Chunk>, vs: seq<Vector>, normOk: bool, sizeBytes: nat)
    requires cs != [] && Embeds(Contents(cs), vs)
    ensures var s := Observe(true, SchemaSet(), ChunkRows(cs), FtsRows(cs), EmbeddingRows(vs),
                             BuildMetadata(), normOk, sizeBytes);
      && s.fileExists && s.openable && s.tables == SchemaSet()
      && s.chunkCount == |cs| && s.embeddingCount == |cs|
      && s.sample == Some(VectorToBlob(vs[0])) && |s.sample.value| == 4 * ExpectedDim
      && s.normOk == normOk && s.metadata == BuildMetadata()
      && s.fts == FtsCount(|cs|) && s.sizeBytes == sizeBytes
  {
    ChunkRowsKeys(cs);
    FtsRowsKeys(cs);
    EmbeddingRowsKeys(vs);
    assert |ChunkRows(cs)| == |ChunkRows(cs).Keys| == |cs|;
    assert |FtsRows(cs)| == |FtsRows(cs).Keys| == |cs|;
    assert |EmbeddingRows(vs)| == |EmbeddingRows(vs).Keys| == |cs|;
    assert 1 in EmbeddingRows(vs).Keys;
    assert MinKey(EmbeddingRows(vs).Keys) == 1;
    EmbeddingRowAt(vs, 0);
    EmbeddingBlobSize(vs[0]);
  }

  /** The report on a freshly built index of `cs` embedded as `vs`: all fourteen checks
      run, every one passes except possibly the norm of the sampled vector (which
      the model does not compute) and the file size (which depends on SQLite's page
      layout); the exit status is 0 exactly when those two pass. */
  lemma BuiltIndexReport(cs: seq<Chunk>, vs: seq<Vector>, normOk: bool, sizeBytes: nat)
    requires cs != [] && Embeds(Contents(cs), vs)
    ensures var v := DoctorReport(Observe(true, SchemaSet(), ChunkRows(cs), FtsRows(cs), EmbeddingRows(vs),
                                          BuildMetadata(), normOk, sizeBytes));
      && v.checks == HealthyChecks(normOk, sizeBytes > MinSizeBytes)
      && (v.exitCode == 0 <==> normOk && sizeBytes > MinSizeBytes)
  {
    var s := Observe(true, SchemaSet(), ChunkRows(cs), FtsRows(cs), EmbeddingRows(vs),
                     BuildMetadata(), normOk, sizeBytes);
    ObserveBuilt(cs, vs, normOk, sizeBytes);
    var name := ModelName();
    assert "model" in s.metadata && s.metadata["model"] == name;
    HealthyReport(s);
  }

  /** `sift index` on `walk` into a new file: with no chunks nothing is written;
      otherwise the file holds the four tables and exactly the rows of the build. */
  method BuildFresh(walk: seq<WalkStep>, sep: char, model: Model) returns (outcome: Outcome, db: Artifact)
    ensures WalkChunks(walk, sep) == [] ==> outcome == NoChunks && !db.onDisk
    ensures var cs := WalkChunks(walk, sep);
      cs != [] ==>
        && outcome == Written && db.onDisk && db.tables == SchemaSet()
        && db.chunks == ChunkRows(cs) && db.fts == FtsRows(cs)
        && db.embeddings == EmbeddingRows(model(Contents(cs))) && db.metadata == BuildMetadata()
  {
    db := new Artifact();
    ghost var planned := WalkChunks(walk, sep);
    FreshNoClash(|planned|, |model(Contents(planned))|);
    var embedder;
    ghost var cs;
    outcome, embedder, cs := BuildIndex(walk, sep, model, db);
    if cs != [] {
      assert db.tables == {} + set t | t in SchemaTables;
      EmptyUnion(ChunkRows(cs));
      EmptyUnion(FtsRows(cs));
      EmptyUnion(EmbeddingRows(model(Contents(cs))));
      EmptyUnion(BuildMetadata());
    }
  }

  /** `sift index` on `walk` into a new file, and what the doctor then finds there. */
  method IndexFresh(walk: seq<WalkStep>, sep: char, model: Model, normOk: bool, sizeBytes: nat)
    returns (outcome: Outcome, snapshot: Snapshot)
    ensures WalkChunks(walk, sep) == [] ==> outcome == NoChunks && !snapshot.fileExists
    ensures var cs := WalkChunks(walk, sep);
      cs != [] ==>
        && outcome == Written
        && snapshot == Observe(true, SchemaSet(), ChunkRows(cs), FtsRows(cs),
                               EmbeddingRows(model(Contents(cs))), BuildMetadata(), normOk, sizeBytes)
  {
    var db;
    outcome, db := BuildFresh(walk, sep, model);
    snapshot := Observe(db.onDisk, db.tables, db.chunks, db.fts, db.embeddings, db.metadata,
                        normOk, sizeBytes);
  }

  /** `sift index` on `walk` into a new file, then `sift doctor` on that file. With no
      chunks to index no file is written and the doctor stops at its first check;
      when the embedding model keeps its contract, the build writes every row and the
      doctor reports fourteen lines and succeeds exactly when the sampled vector's
      norm and the file size pass. */
  method IndexThenDoctor(walk: seq<WalkStep>, sep: char, model: Model, normOk: bool, sizeBytes: nat)
    returns (outcome: Outcome, checks: seq<Check>, exitCode: nat)
    ensures WalkChunks(walk, sep) == [] ==>
      outcome == NoChunks && checks == [Check("Index file exists", false)] && exitCode == 1
    ensures var cs := WalkChunks(walk, sep);
      cs != [] && Embeds(Contents(cs), model(Contents(cs))) ==>
        && outcome == Written
        && checks == HealthyChecks(normOk, sizeBytes > MinSizeBytes)
        && (exitCode == 0 <==> normOk && sizeBytes > MinSizeBytes)
  {
    var snapshot;
    outcome, snapshot := IndexFresh(walk, sep, model, normOk, sizeBytes);
    checks, exitCode := RunDoctor(snapshot);
    ghost var cs := WalkChunks(walk, sep);
    if cs != [] && Embeds(Contents(cs), model(Contents(cs))) {
      BuiltIndexReport(cs, model(Contents(cs)), normOk, sizeBytes);
    }
  }
}
