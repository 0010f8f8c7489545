/**
 The index builder (`embedder.py`): derive each chunk's role list from its department,
 reuse a cached embedding by chunk id or compute a fresh one, and describe the entry
 added to the vector index. The embedding model is a parameter; the vector index is
 modelled by the list of entries handed to it; reading and writing the cache file are
 left out, the cache file being given as its list of lines (or as absent).
 */
module Embedder {
  import opened Strings
  import opened Optional
  import opened Corpus

  type Vector = seq<real>

  /** A line of the embedding cache: the chunk record's fields plus its embedding. */
  datatype EmbeddedRecord = EmbeddedRecord(chunk: ChunkRecord, embedding: Vector)

  /** Metadata stored next to each vector. */
  datatype IndexMetadata = IndexMetadata(sourceDocument: string, department: string, accessibleRoles: string, tokenCount: int)

  /** What is added to the collection for one chunk. */
  datatype IndexEntry = IndexEntry(id: string, embedding: Vector, metadata: IndexMetadata, document: string)

  /** The outcome of one build: the records that rewrite the cache file and the entries
      added to the index, in chunk order. */
  datatype Build = Build(cacheRecords: seq<EmbeddedRecord>, entries: seq<IndexEntry>)

  const GeneralRoles: seq<string> := ["Employees", "Finance", "HR", "Marketing", "Engineering", "C-Level"]

  /** The cache as a map from chunk id to the last line with that id. */
  function CacheOf(lines: seq<EmbeddedRecord>): (cache: map<string, EmbeddedRecord>)
    ensures cache.Keys == set i | 0 <= i < |lines| :: lines[i].chunk.chunkId
    ensures forall id :: id in cache ==> cache[id].chunk.chunkId == id
  {
    if |lines| == 0 then map[]
    else
      var last := lines[|lines| - 1];
      var prev := CacheOf(lines[..|lines| - 1]);
      assert forall i :: 0 <= i < |lines| - 1 ==> lines[..|lines| - 1][i] == lines[i];
      prev[last.chunk.chunkId := last]
  }

  /** `load_embedding_cache`: an absent file gives the empty cache. */
  function LoadEmbeddingCache(file: Option<seq<EmbeddedRecord>>): (cache: map<string, EmbeddedRecord>)
    ensures file.None? ==> cache == map[]
    ensures file.Some? ==> cache.Keys == set i | 0 <= i < |file.value| :: file.value[i].chunk.chunkId
    ensures forall id :: id in cache ==> cache[id].chunk.chunkId == id
  {
    match file
    case None => map[]
    case Some(lines) => CacheOf(lines)
  }

  /** Later lines override earlier ones: the cached record of an id is the last line
      carrying that id. */
  lemma {:induction false} CacheKeepsLastLine(lines: seq<EmbeddedRecord>, i: nat)
    requires i < |lines|
    requires forall j :: i < j < |lines| ==> lines[j].chunk.chunkId != lines[i].chunk.chunkId
    ensures CacheOf(lines)[lines[i].chunk.chunkId] == lines[i]
    decreases |lines|
  {
    var n := |lines| - 1;
    var prefix := lines[..n];
    CacheOfSnoc(lines);
    if i < n {
      assert lines[n].chunk.chunkId != lines[i].chunk.chunkId;
      assert forall j :: i < j < |prefix| ==> prefix[j] == lines[j];
      CacheKeepsLastLine(prefix, i);
      assert prefix[i] == lines[i];
    }
  }

  lemma CacheOfSnoc(lines: seq<EmbeddedRecord>)
    requires |lines| > 0
    ensures CacheOf(lines) == CacheOf(lines[..|lines| - 1])[lines[|lines| - 1].chunk.chunkId := lines[|lines| - 1]]
  {
  }

  lemma DistinctLinesLookup(lines: seq<EmbeddedRecord>, i: nat)
    requires i < |lines|
    requires forall j, k :: 0 <= j < k < |lines| ==> lines[j].chunk.chunkId != lines[k].chunk.chunkId
    ensures CacheOf(lines)[lines[i].chunk.chunkId] == lines[i]
  {
    CacheKeepsLastLine(lines, i);
  }

  /** The role list the index stores for a department: everyone for "general" in any
      letter case, otherwise the department itself and the super-role. The chunk's own
      `accessible_roles` field plays no part. */
  function DeriveRoles(department: string): (roles: seq<string>)
    ensures Lower(department) == "general" ==> roles == GeneralRoles
    ensures Lower(department) != "general" ==> roles == [department, "C-Level"]
  {
    if Lower(department) == "general" then GeneralRoles else [department, "C-Level"]
  }

  /** The comma-joined form in which the index stores the role list. */
  function SerializeRoles(roles: seq<string>): string
  {
    Join(roles, ",")
  }

  function EntryFor(chunk: ChunkRecord, embedding: Vector): IndexEntry
  {
    IndexEntry(chunk.chunkId, embedding,
      IndexMetadata(chunk.sourceDocument, chunk.department, SerializeRoles(DeriveRoles(chunk.department)), chunk.tokenCount),
      chunk.text)
  }

  /** The cache line kept for one chunk: the cached line as it is when the id is cached,
      otherwise the chunk with a fresh embedding. */
  function RecordFor(chunk: ChunkRecord, cache: map<string, EmbeddedRecord>, embed: string -> Vector): EmbeddedRecord
  {
    if chunk.chunkId in cache then cache[chunk.chunkId] else EmbeddedRecord(chunk, embed(chunk.text))
  }

  /** The build loop over the chunks, in order. */
  function BuildIndex(chunks: seq<ChunkRecord>, cache: map<string, EmbeddedRecord>, embed: string -> Vector): (b: Build)
    ensures |b.cacheRecords| == |chunks| && |b.entries| == |chunks|
    ensures forall i :: 0 <= i < |chunks| ==> b.cacheRecords[i] == RecordFor(chunks[i], cache, embed)
    ensures forall i :: 0 <= i < |chunks| ==> b.entries[i] == EntryFor(chunks[i], b.cacheRecords[i].embedding)
  {
    if |chunks| == 0 then Build([], [])
    else
      var rest := BuildIndex(chunks[1..], cache, embed);
      var record := RecordFor(chunks[0], cache, embed);
      Build([record] + rest.cacheRecords, [EntryFor(chunks[0], record.embedding)] + rest.entries)
  }

  /** The rewritten cache holds exactly one line per chunk, in chunk order, each with that
      chunk's id; ids of the old cache that no chunk carries are dropped. */
  lemma RewrittenCacheMatchesChunks(chunks: seq<ChunkRecord>, file: Option<seq<EmbeddedRecord>>, embed: string -> Vector)
    ensures var b := BuildIndex(chunks, LoadEmbeddingCache(file), embed);
      && |b.cacheRecords| == |chunks|
      && (forall i :: 0 <= i < |chunks| ==> b.cacheRecords[i].chunk.chunkId == chunks[i].chunkId)
      && (set r | r in b.cacheRecords :: r.chunk.chunkId) == (set c | c in chunks :: c.chunkId)
  {
    var cache := LoadEmbeddingCache(file);
    RecordIdsMatchChunks(chunks, cache, embed);
    SameIdsSameIdSets(chunks, BuildIndex(chunks, cache, embed).cacheRecords);
  }

  /** Two lists that agree position by position on their ids carry the same set of ids. */
  lemma SameIdsSameIdSets(chunks: seq<ChunkRecord>, records: seq<EmbeddedRecord>)
    requires |records| == |chunks|
    requires forall i :: 0 <= i < |chunks| ==> records[i].chunk.chunkId == chunks[i].chunkId
    ensures (set r | r in records :: r.chunk.chunkId) == (set c | c in chunks :: c.chunkId)
  {
    var fromChunks := set c | c in chunks :: c.chunkId;
    var fromRecords := set r | r in records :: r.chunk.chunkId;
    forall c | c in chunks ensures c.chunkId in fromRecords {
      var i :| 0 <= i < |chunks| && chunks[i] == c;
      assert records[i] in records;
    }
    forall r | r in records ensures r.chunk.chunkId in fromChunks {
      var i :| 0 <= i < |records| && records[i] == r;
      assert chunks[i] in chunks;
    }
  }

  lemma RecordIdsMatchChunks(chunks: seq<ChunkRecord>, cache: map<string, EmbeddedRecord>, embed: string -> Vector)
    requires forall id :: id in cache ==> cache[id].chunk.chunkId == id
    ensures var b := BuildIndex(chunks, cache, embed);
      forall i :: 0 <= i < |chunks| ==> b.cacheRecords[i].chunk.chunkId == chunks[i].chunkId
  {
  }

  /** A cached id wins over the chunk's current text: the cached line is kept as it is,
      stale text included, while the index still receives the current text. */
  lemma CachedLineIsReusedWhenStale(chunk: ChunkRecord, cache: map<string, EmbeddedRecord>, embed: string -> Vector)
    requires chunk.chunkId in cache && cache[chunk.chunkId].chunk.text != chunk.text
    ensures var b := BuildIndex([chunk], cache, embed);
      && b.cacheRecords[0].chunk.text != chunk.text
      && b.entries[0].embedding == cache[chunk.chunkId].embedding
      && b.entries[0].document == chunk.text
  {
  }

  /** Chunks that differ only in their `accessible_roles` field produce the same index
      entries: the index's role list comes from the department alone. */
  lemma EntriesIgnoreAccessibleRoles(chunks: seq<ChunkRecord>, others: seq<ChunkRecord>, cache: map<string, EmbeddedRecord>, embed: string -> Vector)
    requires |chunks| == |others|
    requires forall i :: 0 <= i < |chunks| ==> others[i] == chunks[i].(accessibleRoles := others[i].accessibleRoles)
    ensures BuildIndex(chunks, cache, embed).entries == BuildIndex(others, cache, embed).entries
  {
    var a := BuildIndex(chunks, cache, embed);
    var b := BuildIndex(others, cache, embed);
    forall i | 0 <= i < |chunks| ensures a.entries[i] == b.entries[i] {
      assert others[i].chunkId == chunks[i].chunkId && others[i].text == chunks[i].text;
    }
  }

  /** The stored role list of a non-general chunk names its department and the
      super-role, whatever roles the chunk record lists. */
  lemma StoredRolesOfDepartment(chunk: ChunkRecord, embedding: Vector)
    requires Lower(chunk.department) != "general"
    ensures EntryFor(chunk, embedding).metadata.accessibleRoles == chunk.department + ",C-Level"
  {
    assert Join([chunk.department, "C-Level"], ",") == chunk.department + "," + Join(["C-Level"], ",");
  }

  /** Reloading the rewritten cache gives every chunk id its own line, provided the chunk
      ids are distinct. */
  lemma ReloadRewrittenCache(chunks: seq<ChunkRecord>, cache: map<string, EmbeddedRecord>, embed: string -> Vector, i: nat)
    requires i < |chunks|
    requires forall j, k :: 0 <= j < k < |chunks| ==> chunks[j].chunkId != chunks[k].chunkId
    requires forall id :: id in cache ==> cache[id].chunk.chunkId == id
    ensures var b := BuildIndex(chunks, cache, embed);
      LoadEmbeddingCache(Some(b.cacheRecords))[chunks[i].chunkId] == b.cacheRecords[i]
  {
    var lines := BuildIndex(chunks, cache, embed).cacheRecords;
    RecordIdsMatchChunks(chunks, cache, embed);
    DistinctLinesLookup(lines, i);
  }
}
