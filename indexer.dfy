/** Model of the index builder (cli/sift_search/indexer.py). The SQLite file is an
    object with four tables held as maps; the FTS table's insert trigger is part of
    the chunk insert. Inserts fail on a key already present, and a failed build rolls
    its rows back, as an uncommitted SQLite transaction does. */
module Indexer {
  import opened PyText
  import opened Chunker
  import opened Embedder

  type Byte = bv8

  // ---------------------------------------------------------------------------
  // vector_to_blob

  /** One float32 as four bytes, least significant first
      (`struct.pack("f")` on a little-endian host). */
  function FloatBytes(f: Float32): (b: seq<Byte>)
    ensures |b| == 4
  {
    [(f & 0xFF) as Byte, ((f >> 8) & 0xFF) as Byte, ((f >> 16) & 0xFF) as Byte, ((f >> 24) & 0xFF) as Byte]
  }

  /** Four bytes, least significant first, as a float32 (`struct.unpack("f")`). */
  function BytesFloat(b: seq<Byte>): Float32
    requires |b| == 4
  {
    (b[0] as Float32) | ((b[1] as Float32) << 8) | ((b[2] as Float32) << 16) | ((b[3] as Float32) << 24)
  }

  lemma FloatBytesRoundTrip(f: Float32)
    ensures BytesFloat(FloatBytes(f)) == f
  {
  }

  /** `vector_to_blob`: the values packed one after another. */
  function VectorToBlob(vec: Vector): (blob: seq<Byte>)
    ensures |blob| == 4 * |vec|
  {
    if vec == [] then [] else FloatBytes(vec[0]) + VectorToBlob(vec[1..])
  }

  /** The inverse of `vector_to_blob` on blobs whose length is a multiple of four. */
  function BlobToVector(blob: seq<Byte>): (vec: Vector)
    requires |blob| % 4 == 0
    ensures 4 * |vec| == |blob|
  {
    if blob == [] then [] else [BytesFloat(blob[..4])] + BlobToVector(blob[4..])
  }

  /** A blob is exactly four bytes per value and unpacks to the same values. */
  lemma {:induction false} BlobRoundTrip(vec: Vector)
    ensures |VectorToBlob(vec)| == 4 * |vec|
    ensures BlobToVector(VectorToBlob(vec)) == vec
  {
    if vec != [] {
      var blob := VectorToBlob(vec);
      BlobRoundTrip(vec[1..]);
      FloatBytesRoundTrip(vec[0]);
      assert blob[..4] == FloatBytes(vec[0]);
      assert blob[4..] == VectorToBlob(vec[1..]);
    }
  }

  /** A vector of the embedding dimension becomes a 1536-byte blob. */
  lemma EmbeddingBlobSize(vec: Vector)
    requires |vec| == EmbeddingDim
    ensures |VectorToBlob(vec)| == 1536
  {
  }

  // ---------------------------------------------------------------------------
  // The artifact

  /** A row of the full-text index: the indexed columns of one chunk. */
  datatype FtsEntry = FtsEntry(title: string, content: string)

  /** The tables the schema script creates, in the order the doctor reports them. */
  const SchemaTables: seq<string> := ["chunks", "chunks_fts", "embeddings", "sift_metadata"]

  /** The FTS table holds exactly one entry per chunk, under the chunk's id, with its
      title and content: what the insert trigger maintains. */
  predicate Mirrors(chunks: map<nat, Chunk>, fts: map<nat, FtsEntry>) {
    && fts.Keys == chunks.Keys
    && forall id | id in chunks :: fts[id] == FtsEntry(chunks[id].title, chunks[id].content)
  }

  /** The database file at the output path. */
  class Artifact {
    var onDisk: bool
    var tables: set<string>
    var chunks: map<nat, Chunk>
    var fts: map<nat, FtsEntry>
    var embeddings: map<nat, seq<Byte>>
    var metadata: map<string, string>

    predicate Valid()
      reads this
    {
      Mirrors(chunks, fts)
    }

    /** No file at the path yet. */
    constructor ()
      ensures !onDisk && tables == {} && chunks == map[] && fts == map[] && embeddings == map[] && metadata == map[]
      ensures Valid()
    {
      onDisk := false;
      tables := {};
      chunks := map[];
      fts := map[];
      embeddings := map[];
      metadata := map[];
    }

    /** `sqlite3.connect(path)`: creates the file when it is absent. */
    method Connect()
      modifies this
      ensures onDisk && tables == old(tables) && chunks == old(chunks) && fts == old(fts)
      ensures embeddings == old(embeddings) && metadata == old(metadata)
    {
      onDisk := true;
    }

    /** The schema script: every `CREATE ... IF NOT EXISTS` leaves an existing table alone. */
    method CreateSchema()
      modifies this
      ensures tables == old(tables) + set t | t in SchemaTables
      ensures onDisk == old(onDisk) && chunks == old(chunks) && fts == old(fts)
      ensures embeddings == old(embeddings) && metadata == old(metadata)
    {
      tables := tables + set t | t in SchemaTables;
    }

    /** `INSERT INTO chunks`: fails on an id already present; otherwise the trigger
        adds the FTS entry under the same id. */
    method InsertChunk(id: nat, c: Chunk) returns (ok: bool)
      requires Valid()
      modifies this
      ensures Valid()
      ensures ok == (id !in old(chunks))
      ensures ok ==> chunks == old(chunks)[id := c] && fts == old(fts)[id := FtsEntry(c.title, c.content)]
      ensures !ok ==> chunks == old(chunks) && fts == old(fts)
      ensures onDisk == old(onDisk) && tables == old(tables)
      ensures embeddings == old(embeddings) && metadata == old(metadata)
    {
      ok := id !in chunks;
      if ok {
        chunks := chunks[id := c];
        fts := fts[id := FtsEntry(c.title, c.content)];
      }
    }

    /** `INSERT INTO embeddings`: fails on a chunk id already present. */
    method InsertEmbedding(id: nat, blob: seq<Byte>) returns (ok: bool)
      modifies this
      ensures ok == (id !in old(embeddings))
      ensures embeddings == if ok then old(embeddings)[id := blob] else old(embeddings)
      ensures onDisk == old(onDisk) && tables == old(tables) && chunks == old(chunks) && fts == old(fts)
      ensures metadata == old(metadata)
    {
      ok := id !in embeddings;
      if ok {
        embeddings := embeddings[id := blob];
      }
    }

    /** `INSERT INTO sift_metadata`: fails on a key already present. */
    method InsertMetadata(key: string, value: string) returns (ok: bool)
      modifies this
      ensures ok == (key !in old(metadata))
      ensures metadata == if ok then old(metadata)[key := value] else old(metadata)
      ensures onDisk == old(onDisk) && tables == old(tables) && chunks == old(chunks) && fts == old(fts)
      ensures embeddings == old(embeddings)
    {
      ok := key !in metadata;
      if ok {
        metadata := metadata[key := value];
      }
    }

    /** Discarding the uncommitted rows: the tables return to the given contents. */
    method Rollback(chunks0: map<nat, Chunk>, fts0: map<nat, FtsEntry>,
                    embeddings0: map<nat, seq<Byte>>, metadata0: map<string, string>)
      requires Mirrors(chunks0, fts0)
      modifies this
      ensures Valid()
      ensures chunks == chunks0 && fts == fts0 && embeddings == embeddings0 && metadata == metadata0
      ensures onDisk == old(onDisk) && tables == old(tables)
    {
      chunks, fts, embeddings, metadata := chunks0, fts0, embeddings0, metadata0;
    }
  }

  // ---------------------------------------------------------------------------
  // The rows a build writes

  /** The ids 1..n. */
  function IdRange(n: nat): (ids: set<nat>)
    ensures forall id :: id in ids <==> 1 <= id <= n
    ensures |ids| == n
  {
    if n == 0 then {} else IdRange(n - 1) + {n}
  }

  /** Chunk `i` (from 0) under id `i + 1`. */
  function ChunkRows(cs: seq<Chunk>): map<nat, Chunk> {
    if cs == [] then map[] else ChunkRows(cs[..|cs| - 1])[|cs| := cs[|cs| - 1]]
  }

  /** The FTS entry the trigger adds for each chunk row. */
  function FtsRows(cs: seq<Chunk>): map<nat, FtsEntry> {
    if cs == [] then map[]
    else FtsRows(cs[..|cs| - 1])[|cs| := FtsEntry(cs[|cs| - 1].title, cs[|cs| - 1].content)]
  }

  /** Vector `i` (from 0) as a blob under chunk id `i + 1`. */
  function EmbeddingRows(vs: seq<Vector>): map<nat, seq<Byte>> {
    if vs == [] then map[] else EmbeddingRows(vs[..|vs| - 1])[|vs| := VectorToBlob(vs[|vs| - 1])]
  }

  /** The metadata a build stores: the model name and the dimension as text. */
  function BuildMetadata(): map<string, string> {
    map["model" := ModelName(), "embedding_dim" := "384"]
  }

  /** The contents of the chunks, in chunk order: what is sent to the embedder. */
  function Contents(cs: seq<Chunk>): (texts: seq<string>)
    ensures |texts| == |cs| && forall i | 0 <= i < |cs| :: texts[i] == cs[i].content
  {
    seq(|cs|, i requires 0 <= i < |cs| => cs[i].content)
  }

  /** The chunk ids are the dense range 1..N, id `i + 1` holding chunk `i` unchanged,
      and the FTS rows mirror them. */
  lemma ChunkRowsSpec(cs: seq<Chunk>)
    ensures ChunkRows(cs).Keys == IdRange(|cs|)
    ensures forall i | 0 <= i < |cs| :: ChunkRows(cs)[i + 1] == cs[i]
    ensures Mirrors(ChunkRows(cs), FtsRows(cs))
  {
    ChunkRowsAt(cs);
    FtsRowsAt(cs);
  }

  lemma {:induction false} ChunkRowsKeys(cs: seq<Chunk>)
    ensures ChunkRows(cs).Keys == IdRange(|cs|)
    decreases |cs|
  {
    if cs != [] {
      ChunkRowsKeys(cs[..|cs| - 1]);
    }
  }

  lemma {:induction false} ChunkRowAt(cs: seq<Chunk>, i: nat)
    requires i < |cs|
    ensures i + 1 in ChunkRows(cs) && ChunkRows(cs)[i + 1] == cs[i]
    decreases |cs|
  {
    if i < |cs| - 1 {
      ChunkRowAt(cs[..|cs| - 1], i);
    }
  }

  lemma ChunkRowsAt(cs: seq<Chunk>)
    ensures ChunkRows(cs).Keys == IdRange(|cs|)
    ensures forall i | 0 <= i < |cs| :: ChunkRows(cs)[i + 1] == cs[i]
  {
    ChunkRowsKeys(cs);
    forall i | 0 <= i < |cs| ensures ChunkRows(cs)[i + 1] == cs[i] {
      ChunkRowAt(cs, i);
    }
  }

  lemma {:induction false} FtsRowsKeys(cs: seq<Chunk>)
    ensures FtsRows(cs).Keys == IdRange(|cs|)
    decreases |cs|
  {
    if cs != [] {
      FtsRowsKeys(cs[..|cs| - 1]);
    }
  }

  lemma {:induction false} FtsRowAt(cs: seq<Chunk>, i: nat)
    requires i < |cs|
    ensures i + 1 in FtsRows(cs) && FtsRows(cs)[i + 1] == FtsEntry(cs[i].title, cs[i].content)
    decreases |cs|
  {
    if i < |cs| - 1 {
      FtsRowAt(cs[..|cs| - 1], i);
    }
  }

  lemma FtsRowsAt(cs: seq<Chunk>)
    ensures FtsRows(cs).Keys == IdRange(|cs|)
    ensures forall i | 0 <= i < |cs| :: FtsRows(cs)[i + 1] == FtsEntry(cs[i].title, cs[i].content)
  {
    FtsRowsKeys(cs);
    forall i | 0 <= i < |cs| ensures FtsRows(cs)[i + 1] == FtsEntry(cs[i].title, cs[i].content) {
      FtsRowAt(cs, i);
    }
  }

  lemma {:induction false} EmbeddingRowsKeys(vs: seq<Vector>)
    ensures EmbeddingRows(vs).Keys == IdRange(|vs|)
    decreases |vs|
  {
    if vs != [] {
      EmbeddingRowsKeys(vs[..|vs| - 1]);
    }
  }

  lemma {:induction false} EmbeddingRowAt(vs: seq<Vector>, i: nat)
    requires i < |vs|
    ensures i + 1 in EmbeddingRows(vs) && EmbeddingRows(vs)[i + 1] == VectorToBlob(vs[i])
    decreases |vs|
  {
    if i < |vs| - 1 {
      EmbeddingRowAt(vs[..|vs| - 1], i);
    }
  }

  /** As many blobs as vectors, blob id `i + 1` holding vector `i`, packed. */
  lemma EmbeddingRowsSpec(vs: seq<Vector>)
    ensures EmbeddingRows(vs).Keys == IdRange(|vs|)
    ensures forall i | 0 <= i < |vs| :: EmbeddingRows(vs)[i + 1] == VectorToBlob(vs[i])
  {
    EmbeddingRowsKeys(vs);
    forall i | 0 <= i < |vs| ensures EmbeddingRows(vs)[i + 1] == VectorToBlob(vs[i]) {
      EmbeddingRowAt(vs, i);
    }
  }

  /** No row the build would write is already present. */
  predicate NoClash(chunks: map<nat, Chunk>, embeddings: map<nat, seq<Byte>>,
                    metadata: map<string, string>, n: nat, m: nat) {
    && chunks.Keys !! IdRange(n)
    && embeddings.Keys !! IdRange(m)
    && "model" !in metadata && "embedding_dim" !in metadata
  }

  datatype Outcome = NoChunks | Clash | Written

  lemma ChunkRowsSnoc(cs: seq<Chunk>, c: Chunk)
    ensures ChunkRows(cs + [c]) == ChunkRows(cs)[|cs| + 1 := c]
    ensures FtsRows(cs + [c]) == FtsRows(cs)[|cs| + 1 := FtsEntry(c.title, c.content)]
  {
    assert (cs + [c])[..|cs|] == cs;
  }

  lemma EmbeddingRowsSnoc(vs: seq<Vector>, v: Vector)
    ensures EmbeddingRows(vs + [v]) == EmbeddingRows(vs)[|vs| + 1 := VectorToBlob(v)]
  {
    assert (vs + [v])[..|vs|] == vs;
  }

  lemma TakeSnoc<T>(s: seq<T>, i: nat)
    requires i < |s|
    ensures s[..i + 1] == s[..i] + [s[i]]
  {
  }

  lemma UnionUpdate<K, V>(a: map<K, V>, b: map<K, V>, k: K, v: V)
    ensures (a + b)[k := v] == a + b[k := v]
  {
  }

  /** Inserting chunk `i` under id `i + 1` extends the rows written so far by one;
      it clashes exactly when the old table already held that id. */
  lemma ChunkInsertStep(c0: map<nat, Chunk>, f0: map<nat, FtsEntry>, cs: seq<Chunk>, i: nat)
    requires i < |cs| && c0.Keys !! IdRange(i)
    ensures (c0 + ChunkRows(cs[..i]))[i + 1 := cs[i]] == c0 + ChunkRows(cs[..i + 1])
    ensures (f0 + FtsRows(cs[..i]))[i + 1 := FtsEntry(cs[i].title, cs[i].content)] == f0 + FtsRows(cs[..i + 1])
    ensures (i + 1 in c0 + ChunkRows(cs[..i])) == (i + 1 in c0)
    ensures i + 1 !in c0 ==> c0.Keys !! IdRange(i + 1)
    ensures i + 1 in c0 ==> !(c0.Keys !! IdRange(|cs|))
  {
    ChunkRowsSnoc(cs[..i], cs[i]);
    TakeSnoc(cs, i);
    UnionUpdate(c0, ChunkRows(cs[..i]), i + 1, cs[i]);
    UnionUpdate(f0, FtsRows(cs[..i]), i + 1, FtsEntry(cs[i].title, cs[i].content));
    ChunkRowsKeys(cs[..i]);
  }

  /** The same for the blob of vector `i`. */
  lemma EmbeddingInsertStep(e0: map<nat, seq<Byte>>, vs: seq<Vector>, i: nat)
    requires i < |vs| && e0.Keys !! IdRange(i)
    ensures (e0 + EmbeddingRows(vs[..i]))[i + 1 := VectorToBlob(vs[i])] == e0 + EmbeddingRows(vs[..i + 1])
    ensures (i + 1 in e0 + EmbeddingRows(vs[..i])) == (i + 1 in e0)
    ensures i + 1 !in e0 ==> e0.Keys !! IdRange(i + 1)
    ensures i + 1 in e0 ==> !(e0.Keys !! IdRange(|vs|))
  {
    EmbeddingRowsSnoc(vs[..i], vs[i]);
    TakeSnoc(vs, i);
    UnionUpdate(e0, EmbeddingRows(vs[..i]), i + 1, VectorToBlob(vs[i]));
    EmbeddingRowsKeys(vs[..i]);
  }

  /** The chunk loop: chunk `i` under id `i + 1`, each insert firing the trigger. On
      a clash nothing more is inserted. */
  method InsertChunks(db: Artifact, cs: seq<Chunk>) returns (ok: bool)
    requires db.Valid()
    modifies db
    ensures db.Valid()
    ensures ok == (old(db.chunks).Keys !! IdRange(|cs|))
    ensures ok ==> db.chunks == old(db.chunks) + ChunkRows(cs) && db.fts == old(db.fts) + FtsRows(cs)
    ensures db.onDisk == old(db.onDisk) && db.tables == old(db.tables)
    ensures db.embeddings == old(db.embeddings) && db.metadata == old(db.metadata)
  {
    ok := true;
    for i := 0 to |cs|
      invariant db.Valid()
      invariant old(db.chunks).Keys !! IdRange(i)
      invariant db.chunks == old(db.chunks) + ChunkRows(cs[..i]) && db.fts == old(db.fts) + FtsRows(cs[..i])
      invariant db.onDisk == old(db.onDisk) && db.tables == old(db.tables)
      invariant db.embeddings == old(db.embeddings) && db.metadata == old(db.metadata)
    {
      ChunkInsertStep(old(db.chunks), old(db.fts), cs, i);
      ok := db.InsertChunk(i + 1, cs[i]);
      if !ok {
        return;
      }
    }
    assert cs[..|cs|] == cs;
  }

  /** The embedding loop: vector `i` as a blob under chunk id `i + 1`. */
  method InsertEmbeddings(db: Artifact, vs: seq<Vector>) returns (ok: bool)
    modifies db
    ensures ok == (old(db.embeddings).Keys !! IdRange(|vs|))
    ensures ok ==> db.embeddings == old(db.embeddings) + EmbeddingRows(vs)
    ensures db.onDisk == old(db.onDisk) && db.tables == old(db.tables)
    ensures db.chunks == old(db.chunks) && db.fts == old(db.fts) && db.metadata == old(db.metadata)
  {
    ok := true;
    for i := 0 to |vs|
      invariant old(db.embeddings).Keys !! IdRange(i)
      invariant db.embeddings == old(db.embeddings) + EmbeddingRows(vs[..i])
      invariant db.onDisk == old(db.onDisk) && db.tables == old(db.tables)
      invariant db.chunks == old(db.chunks) && db.fts == old(db.fts) && db.metadata == old(db.metadata)
    {
      EmbeddingInsertStep(old(db.embeddings), vs, i);
      ok := db.InsertEmbedding(i + 1, VectorToBlob(vs[i]));
      if !ok {
        return;
      }
    }
    assert vs[..|vs|] == vs;
  }

  /** The two metadata inserts. */
  method InsertMetadata(db: Artifact) returns (ok: bool)
    modifies db
    ensures ok == ("model" !in old(db.metadata) && "embedding_dim" !in old(db.metadata))
    ensures ok ==> db.metadata == old(db.metadata) + BuildMetadata()
    ensures db.onDisk == old(db.onDisk) && db.tables == old(db.tables)
    ensures db.chunks == old(db.chunks) && db.fts == old(db.fts) && db.embeddings == old(db.embeddings)
  {
    ok := db.InsertMetadata("model", ModelName());
    if ok {
      ok := db.InsertMetadata("embedding_dim", "384");
    }
  }

  /** `build_index(content_dir, output_path)`: chunk the directory; with no chunks,
      stop before creating the embedder or touching the file; otherwise embed the
      contents in one call, create the schema, and write chunks (with their FTS
      entries), embeddings and metadata, rolled back on a key clash. */
  method BuildIndex(walk: seq<WalkStep>, sep: char, model: Model, db: Artifact)
    returns (outcome: Outcome, embedder: Embedder?, ghost cs: seq<Chunk>)
    requires db.Valid()
    modifies db
    ensures db.Valid()
    ensures cs == WalkChunks(walk, sep)
    ensures cs == [] ==> outcome == NoChunks && embedder == null && unchanged(db)
    ensures cs != [] ==> && embedder != null && fresh(embedder)
                         && embedder.requests == [Contents(cs)]
                         && db.onDisk && db.tables == old(db.tables) + set t | t in SchemaTables
    ensures outcome == Written <==>
      cs != [] && NoClash(old(db.chunks), old(db.embeddings), old(db.metadata), |cs|, |model(Contents(cs))|)
    ensures outcome == Written ==>
      && db.chunks == old(db.chunks) + ChunkRows(cs) && db.fts == old(db.fts) + FtsRows(cs)
      && db.embeddings == old(db.embeddings) + EmbeddingRows(model(Contents(cs)))
      && db.metadata == old(db.metadata) + BuildMetadata()
    ensures outcome != Written ==>
      db.chunks == old(db.chunks) && db.fts == old(db.fts)
      && db.embeddings == old(db.embeddings) && db.metadata == old(db.metadata)
  {
    var chunks := ChunkDirectory(walk, sep);
    cs := chunks;
    if chunks == [] {
      return NoChunks, null, cs;
    }
    embedder := new Embedder(model);
    var vectors := embedder.Embed(Contents(chunks));
    db.Connect();
    db.CreateSchema();
    var c0, f0, e0, m0 := db.chunks, db.fts, db.embeddings, db.metadata;
    var ok := InsertChunks(db, chunks);
    if ok {
      ok := InsertEmbeddings(db, vectors);
    }
    if ok {
      ok := InsertMetadata(db);
    }
    if ok {
      outcome := Written;
    } else {
      db.Rollback(c0, f0, e0, m0);
      outcome := Clash;
    }
  }
}
