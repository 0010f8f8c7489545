/**
 The corpus build of the preprocessing stage (the document loop of the chunker's
 `main`): clean each document, split it into sentences, chunk it, map it to a
 department and its roles, and turn every chunk into a chunk record. Reading the files
 and writing the JSON-lines output are left out; the sentence splitter is a parameter.
 */
module Corpus {
  import opened Strings
  import opened Cleaner
  import opened Chunker
  import opened Metadata

  /** One line of the chunk file. */
  datatype ChunkRecord = ChunkRecord(
    chunkId: string,
    text: string,
    sourceDocument: string,
    department: string,
    accessibleRoles: seq<string>,
    tokenCount: int)

  /** A raw document as listed and read from the corpus folder. */
  datatype Document = Document(path: string, content: string)

  function EndsWith(s: string, suffix: string): bool {
    |suffix| <= |s| && s[|s| - |suffix|..] == suffix
  }

  /** Only Markdown and CSV documents are chunked; anything else is skipped. */
  predicate IsChunkable(path: string) {
    EndsWith(path, ".md") || EndsWith(path, ".csv")
  }

  /** The records of one document, numbered from 1 in chunk order. */
  function DocumentRecords(path: string, chunks: seq<string>, department: string, roles: seq<string>): (r: seq<ChunkRecord>)
    ensures |r| == |chunks|
    ensures forall i :: 0 <= i < |r| ==> r[i] == ChunkRecord(ChunkId(BaseName(path), i + 1), chunks[i],
              BaseName(path), department, roles, CountTokens(chunks[i]))
  {
    seq(|chunks|, i requires 0 <= i < |chunks| =>
      ChunkRecord(ChunkId(BaseName(path), i + 1), chunks[i], BaseName(path), department, roles, CountTokens(chunks[i])))
  }

  /** The chunk list of one document with the default bounds (300, 512, 50). */
  function ChunkDocument(content: string, splitSentences: string -> seq<string>): seq<string>
  {
    ChunkText(splitSentences(CleanText(content)), DefaultMinTokens, DefaultMaxTokens, DefaultOverlapTokens)
  }

  function RecordsOf(doc: Document, config: RoleConfig, splitSentences: string -> seq<string>): seq<ChunkRecord>
  {
    var department := InferDepartment(doc.path, config);
    DocumentRecords(doc.path, ChunkDocument(doc.content, splitSentences), department, GetAllowedRoles(department, config))
  }

  /** All records of the corpus, document after document. */
  function BuildCorpus(docs: seq<Document>, config: RoleConfig, splitSentences: string -> seq<string>): seq<ChunkRecord>
  {
    if |docs| == 0 then []
    else
      (if IsChunkable(docs[0].path) then RecordsOf(docs[0], config, splitSentences) else [])
      + BuildCorpus(docs[1..], config, splitSentences)
  }

  /** Every record of the corpus is within 512 tokens, its `token_count` is the token
      length of its text, and it carries the department and roles its path maps to. */
  lemma {:induction false} CorpusRecordsWellFormed(docs: seq<Document>, config: RoleConfig, splitSentences: string -> seq<string>)
    ensures forall r :: r in BuildCorpus(docs, config, splitSentences) ==>
      && r.tokenCount == CountTokens(r.text)
      && r.tokenCount <= DefaultMaxTokens
      && exists d :: d in docs && IsChunkable(d.path) && r.sourceDocument == BaseName(d.path)
           && r.department == InferDepartment(d.path, config)
           && r.accessibleRoles == GetAllowedRoles(r.department, config)
  {
    if |docs| > 0 {
      CorpusRecordsWellFormed(docs[1..], config, splitSentences);
      var d := docs[0];
      if IsChunkable(d.path) {
        var chunks := ChunkDocument(d.content, splitSentences);
        ChunkTextWithinMax(splitSentences(CleanText(d.content)), DefaultMinTokens, DefaultMaxTokens, DefaultOverlapTokens);
        var head := RecordsOf(d, config, splitSentences);
        forall r | r in head
          ensures r.tokenCount == CountTokens(r.text) && r.tokenCount <= DefaultMaxTokens
        {
          var i :| 0 <= i < |head| && head[i] == r;
          assert chunks[i] in chunks;
        }
      }
    }
  }

  /** Within one document the chunk ids are pairwise distinct. */
  lemma DocumentIdsDistinct(path: string, chunks: seq<string>, department: string, roles: seq<string>)
    ensures var r := DocumentRecords(path, chunks, department, roles);
      forall i, j :: 0 <= i < j < |r| ==> r[i].chunkId != r[j].chunkId
  {
    var r := DocumentRecords(path, chunks, department, roles);
    var name := BaseName(path);
    RecordsNumbered(path, chunks, department, roles);
    NumberedIdsDistinct(r, name);
  }

  /** The records of a document are numbered from 1 under its base name. */
  lemma RecordsNumbered(path: string, chunks: seq<string>, department: string, roles: seq<string>)
    ensures var r := DocumentRecords(path, chunks, department, roles);
      forall k :: 0 <= k < |r| ==> r[k].chunkId == ChunkId(BaseName(path), k + 1)
  {
  }

  /** Records numbered from 1 under one name carry pairwise distinct ids. */
  lemma NumberedIdsDistinct(r: seq<ChunkRecord>, name: string)
    requires forall k :: 0 <= k < |r| ==> r[k].chunkId == ChunkId(name, k + 1)
    ensures forall i, j :: 0 <= i < j < |r| ==> r[i].chunkId != r[j].chunkId
  {
    forall i, j | 0 <= i < j < |r| ensures r[i].chunkId != r[j].chunkId {
      IdsOfOrdinalsDiffer(name, i + 1, j + 1);
    }
  }

  lemma IdsOfOrdinalsDiffer(name: string, i: nat, j: nat)
    requires i != j
    ensures ChunkId(name, i) != ChunkId(name, j)
  {
    if ChunkId(name, i) == ChunkId(name, j) {
      ChunkIdInjective(name, i, j);
    }
  }

  /** Ids are built from the file's base name only, so two documents with the same file
      name in different folders get the same first chunk id. */
  lemma SameFileNameSameIds(folderA: string, folderB: string, name: string, chunksA: seq<string>, chunksB: seq<string>,
                            deptA: string, deptB: string, rolesA: seq<string>, rolesB: seq<string>)
    requires '/' !in name
    requires |chunksA| > 0 && |chunksB| > 0
    ensures DocumentRecords(folderA + "/" + name, chunksA, deptA, rolesA)[0].chunkId
         == DocumentRecords(folderB + "/" + name, chunksB, deptB, rolesB)[0].chunkId
  {
    BaseNameAfterFolder(folderA, name);
    BaseNameAfterFolder(folderB, name);
  }

  lemma BaseNameAfterFolder(folder: string, name: string)
    requires '/' !in name
    ensures BaseName(folder + "/" + name) == name
  {
    var p := folder + "/" + name;
    assert p[|folder|] == '/';
    assert p[|folder| + 1..] == name;
  }
}
