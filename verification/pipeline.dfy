/**
 Properties that span several stages: what the chunker emits against what the
 validator accepts, the department mapper against the validator, and the roles the
 index builder stores against what the retriever admits.
 */
module Pipeline {
  import opened Strings
  import opened Cleaner
  import opened Chunker
  import opened Metadata
  import opened Corpus
  import opened Embedder
  import opened SearchService
  import opened Optional
  import Validation

  /** A chunk record as the validator reads it back: every field present. */
  function AsValidated(c: ChunkRecord): Validation.Record {
    Validation.Record(c.chunkId, c.text, c.sourceDocument, c.department, c.accessibleRoles, c.tokenCount)
  }

  /** A document whose sentences fit in one chunk of fewer than 300 tokens is chunked
      into that single chunk, and the validator rejects the resulting record for its
      token count. */
  lemma ShortDocumentRejected(doc: Document, config: RoleConfig, splitSentences: string -> seq<string>)
    requires var sentences := splitSentences(CleanText(doc.content));
      |sentences| > 0 && TotalLength(sentences) + |sentences| - 1 < Validation.MinTokens
    ensures var records := RecordsOf(doc, config, splitSentences);
      && |records| == 1
      && records[0].text == Join(splitSentences(CleanText(doc.content)), " ")
      && Validation.ValidateComplete([AsValidated(records[0])])
         == Validation.Failed(Validation.TokenCountOutOfRange(records[0].chunkId, records[0].tokenCount))
  {
    var sentences := splitSentences(CleanText(doc.content));
    var joined := Join(sentences, " ");
    ShortSentencesOneChunk(sentences);
    var department := InferDepartment(doc.path, config);
    var records := DocumentRecords(doc.path, [joined], department, GetAllowedRoles(department, config));
    assert records == RecordsOf(doc, config, splitSentences);
    assert records[0].tokenCount == |joined|;
    Validation.FirstTokenCountReported([AsValidated(records[0])], 0);
  }

  lemma ShortSentencesOneChunk(sentences: seq<string>)
    requires |sentences| > 0 && TotalLength(sentences) + |sentences| - 1 < Validation.MinTokens
    ensures ChunkText(sentences, DefaultMinTokens, DefaultMaxTokens, DefaultOverlapTokens) == [Join(sentences, " ")]
    ensures |Join(sentences, " ")| < Validation.MinTokens
  {
    ChunkTextFitsInOne(sentences, DefaultMinTokens, DefaultMaxTokens, DefaultOverlapTokens);
    JoinLengthUnitSep(sentences, " ");
  }

  /** A document whose path matches no configured folder lands in `Unknown` with no
      roles, and the validator rejects its records once the earlier checks pass. */
  lemma UnmatchedDocumentHasNoRoles(doc: Document, config: RoleConfig, splitSentences: string -> seq<string>)
    requires forall i :: 0 <= i < |config| ==> !Matches(config[i], NormalizePath(doc.path))
    requires forall i :: 0 <= i < |config| ==> config[i].name != UnknownDepartment
    ensures forall r :: r in RecordsOf(doc, config, splitSentences) ==>
      && r.department == UnknownDepartment
      && r.accessibleRoles == []
      && Validation.RolesFault(AsValidated(r)) == Some(Validation.NoAccessibleRoles(r.chunkId))
  {
  }

  /** Whatever roles the chunk record carries, the index entry built from it is admitted
      for a role exactly as its department dictates: every role of the organisation for
      `General`, otherwise the super-role and the department's own name, ignoring case. */
  lemma IndexedChunkVisibility(chunk: ChunkRecord, embedding: Vector, userRole: string, d: Distance)
    requires ',' !in chunk.department
    requires |chunk.department| > 0 ==> !IsSpace(chunk.department[0]) && !IsSpace(chunk.department[|chunk.department| - 1])
    ensures var e := EntryFor(chunk, embedding);
      var c := Candidate(e.document, e.metadata, d);
      && (Lower(chunk.department) == "general" ==>
            (Admits(Lower(userRole), c) <==> Lower(userRole) in ["employees", "finance", "hr", "marketing", "engineering", "c-level"]))
      && (Lower(chunk.department) != "general" ==>
            (Admits(Lower(userRole), c) <==> Lower(userRole) == SuperRole || Lower(userRole) == Lower(chunk.department)))
  {
    var e := EntryFor(chunk, embedding);
    var c := Candidate(e.document, e.metadata, d);
    if Lower(chunk.department) == "general" {
      GeneralAdmission(chunk.department, userRole, c);
    } else {
      DepartmentAdmission(chunk.department, userRole, c);
    }
  }
}
