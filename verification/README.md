# Company chatbot retrieval pipeline — Dafny model

This project models the decision logic of an internal question-answering chatbot. The
chatbot answers questions from company documents and applies role-based access control.
The model covers eight parts:

- **Cleaner.** The character-level cleaning that every document goes through.
- **Chunker.** Splits a document into token-bounded chunks. It carries an overlap from one
  chunk to the next, falls back to word-by-word pieces for over-long sentences, and runs a
  backward merge pass for short chunks. It also builds the chunk ids.
- **Department mapper.** Maps a document path to a department, and a department to its
  role list.
- **Index builder.** Derives the stored role list from the department. It reuses cached
  embeddings by chunk id and rewrites the embedding cache.
- **RBAC-filtered retriever.** Filters the vector index's nearest candidates by role,
  with the `c-level` super-role admitting everything, and truncates to `k`.
- **Answer assembler.** Applies the relevance guard, uses at most three hits, builds the
  prompt, replaces an empty answer, lists de-duplicated sources and scores confidence.
- **Route-level access table and check.** The role table and the per-request allow/deny
  check.
- **Corpus validator.** Runs the checks of the validation script in order and stops at
  the first failure.

Everything is pure and functional. The tokenizer, sentence splitter, embedding model,
vector index and language model become fixed choices or function parameters:

- **Tokens.** One token is one character. `count_tokens` is the length of the text, and
  encoding and decoding are the identity. Python slicing with negative bounds is modelled
  exactly (`Strings.Take`, `Strings.DropFront`).
- **Sentence splitter.** The sentence list is an input to `Chunker.ChunkText`. In the
  corpus build it is the function parameter `splitSentences`.
- **Embedding model.** The embedding function is the parameter `embed`.
- **Vector index.** The index's answer is a ranked candidate list, nearest first. The
  retriever sees its first ten entries.
- **Language model.** `generate_answer` is the parameter `generate`.
- **Distances** are non-negative reals. Confidence is the exact real `1/(1+mean)`.

Modules, one file each:

| file | module | models |
|---|---|---|
| `strings.dfy` | `Strings` | Python `strip`, `lower`, `join`, `split`, `split()`, `in`, slicing |
| `optional.dfy` | `Optional` | absent values |
| `cleaner.dfy` | `Cleaner` | `clean_text` |
| `chunker.dfy` | `Chunker` | `count_tokens`, `trim_to_last_tokens`, `hard_trim_to_max`, `chunk_text`, chunk ids |
| `metadata.dfy` | `Metadata` | `infer_department`, `get_allowed_roles` |
| `corpus.dfy` | `Corpus` | the document loop of the chunker's `main` |
| `embedder.dfy` | `Embedder` | `load_embedding_cache`, cache reuse, role derivation, index entries |
| `search_service.dfy` | `SearchService` | `search_with_rbac` |
| `rag.dfy` | `Rag` | `build_prompt`, `compute_confidence`, `rag_pipeline` |
| `rbac.dfy` | `Rbac` | `RBAC_RULES`, `rbac_required` |
| `validation.dfy` | `Validation` | `main` of the validation script |
| `pipeline.dfy` | `Pipeline` | properties that span several stages |

Three behaviours of the code are worth stating plainly:

- **Embedding cache.** The rewritten cache holds only the records of the current chunk
  list (app/services/embedder.py:68-80 and 104); records of chunks no longer present are
  dropped (`Embedder.RewrittenCacheMatchesChunks`).
- **Generator failures.** Neither `rag_pipeline` nor `generate_answer` catches
  exceptions; the model takes the generator as a total function.
- **Unrecognised roles at the retriever.** `search_with_rbac` does not reject an
  unrecognised role; such a role is admitted only to candidates that list it.

## Model

| member | source | states |
|---|---|---|
| Cleaner.CleanText | preprocessing/cleaner.py:14-33 | the six cleaning steps in source order; no contract of its own, its output is described by `Cleaner.CleanTextIsClean`, `Cleaner.CleanTextFixesClean` and `Cleaner.CleanTextIdempotent` |
| Cleaner.CollapseSpace | preprocessing/cleaner.py:16 | every whitespace run becomes one space: the output has no two adjacent whitespace characters, each output character is a space or a non-whitespace character of the input, and the output is empty only for empty input |
| Cleaner.CollapseSpaceIdentity | preprocessing/cleaner.py:16 | text whose only whitespace is single spaces comes back unchanged |
| Cleaner.CollapsePunct | preprocessing/cleaner.py:25 | after collapsing runs of `! ? . , -` no two punctuation marks are adjacent, every output character comes from the input, and the output is empty only for empty input |
| Cleaner.CollapsePunctRun | preprocessing/cleaner.py:25 | a maximal run of marks, mixed or not, becomes its last mark (the back-reference holds the group's last repetition), and the text after the run is collapsed on its own |
| Cleaner.CollapsePunctIdentity | preprocessing/cleaner.py:25 | text without two adjacent punctuation marks comes back unchanged |
| Cleaner.ReplaceNonPrintable | preprocessing/cleaner.py:19 | same length; each character outside printable ASCII becomes a space and every other one is kept |
| Cleaner.ReplaceJunk | preprocessing/cleaner.py:22 | same length; each junk symbol becomes a space and every other character is kept |
| Cleaner.RemoveEntities | preprocessing/cleaner.py:28 | replaces each `&` + lower-case letters + `;` by a space; no contract of its own, `Cleaner.RemoveEntitiesWithoutAmpersand` states where it matters |
| Cleaner.RemoveEntitiesWithoutAmpersand | preprocessing/cleaner.py:22-28 | the entity pattern needs `&`, so on text without `&` (all text after the junk replacement) the entity step changes nothing |
| Cleaner.CleanTextIsClean | preprocessing/cleaner.py:14-33 | every output character is printable ASCII and not a junk symbol; no leading or trailing space; no two adjacent whitespace characters; no two adjacent punctuation marks |
| Cleaner.CleanTextFixesClean | preprocessing/cleaner.py:14-33 | text already of that clean shape is returned unchanged |
| Cleaner.CleanTextIdempotent | preprocessing/cleaner.py:14-33 | cleaning twice equals cleaning once |
| Cleaner.JunkOnlyCleansToEmpty | preprocessing/cleaner.py:14-33 | text made only of whitespace, non-printable characters and junk symbols cleans to the empty string |
| Chunker.CountTokens | preprocessing/chunker.py:26-27 | one token per character: the count is the text's length (see the tokenizer line under Left out) |
| Chunker.TrimToLastTokens | preprocessing/chunker.py:30-32 | the result is a suffix of the text; for positive `m` it has `min(m, n)` tokens; for `m = 0` the slice `[-0:]` gives the whole text; for negative `m` it drops the first `-m` tokens |
| Chunker.HardTrimToMax | preprocessing/chunker.py:35-39 | the result is a prefix of the text; it is the text itself iff the text is within the bound; otherwise it has exactly `max` tokens |
| Chunker.WordStep | preprocessing/chunker.py:62-72 | one iteration of the word loop; no contract of its own, stated by `Chunker.WordStepKeepsWords` and `Chunker.ScanWords` |
| Chunker.ScanWords | preprocessing/chunker.py:62-72 | the word loop only appends pieces, never changes earlier ones, and every appended piece is within a non-negative bound |
| Chunker.SplitOversized | preprocessing/chunker.py:57-78 | every piece an over-long sentence is cut into is within a non-negative bound; when each word of the sentence is within the bound, the pieces' words, piece after piece, are exactly the sentence's words in order |
| Chunker.ScanWordsKeepsWords | preprocessing/chunker.py:62-72 | for words within the bound, the emitted pieces followed by the word buffer hold exactly the words seen so far, in order, and the buffer's join stays within the bound |
| Chunker.OversizedFirstWordGivesEmptyPiece | preprocessing/chunker.py:62-69 | when the first word plus its space already exceeds the bound, the first piece emitted is the empty string and at least two pieces result |
| Chunker.Step | preprocessing/chunker.py:54-89 | one iteration of the sentence loop; no contract of its own, stated by `Chunker.ScanSentences`, `Chunker.FlushSeedsOverlap` and `Chunker.OversizedStepKeepsWords` |
| Chunker.ScanSentences | preprocessing/chunker.py:54-89 | the sentence loop only appends chunks, and with a non-negative bound every appended chunk is within it |
| Chunker.FirstPass | preprocessing/chunker.py:54-93 | every chunk of the first pass, final flush included, is within a non-negative bound |
| Chunker.FlushSeedsOverlap | preprocessing/chunker.py:80-86 | a flush appends one chunk, the buffered join itself when it is within the bound and its first `max` tokens otherwise; the next buffer is the overlap suffix of that chunk followed by the new sentence; with overlap 0 the whole chunk is carried over |
| Chunker.OversizedStepKeepsWords | preprocessing/chunker.py:55-78 | an over-long sentence whose words are each within the bound adds exactly its words, in order, after the words already emitted, and leaves the sentence buffer untouched |
| Chunker.OversizedOvertakesBuffer | preprocessing/chunker.py:54-93 | for buffered sentences that fit together and any over-long sentence after them, the first pass is the sentence's pieces followed by the buffered sentences' space-join |
| Chunker.FlushCutsBufferedWord | preprocessing/chunker.py:80-93 | the buffer count leaves out the joining spaces, so the flush can cut a buffered word: with bound 4 and overlap 1, `ab`, `cd`, `e` give `ab c`, `c e` |
| Chunker.OversizedOvertakesBufferedSentence | preprocessing/chunker.py:57-93 | with max 2 and overlap 1, sentences `a`, `bcd` give chunks `""`, `bc`, `a`: the empty piece and the word piece precede the earlier buffered sentence |
| Chunker.MergeStep | preprocessing/chunker.py:97-108 | one iteration of the merge pass; no contract of its own, stated by `Chunker.MergeStepShort` |
| Chunker.MergeShort | preprocessing/chunker.py:95-110 | the merge pass keeps chunks within a non-negative bound, never changes any chunk but the last already placed, only extends that last one at its end, and adds one chunk per input chunk that reaches `min` once trimmed |
| Chunker.MergeStepShort | preprocessing/chunker.py:97-108 | a short chunk with a predecessor replaces it by their trimmed space-join when the bound is non-negative (the join always fits) and is appended when it is negative; any other chunk is appended, trimmed |
| Chunker.TrimAbsorbs | preprocessing/chunker.py:35-39 | for a non-negative bound, trimming a text before appending to it and trimming again equals trimming once |
| Chunker.MergeShortAbsorbsShort | preprocessing/chunker.py:95-108 | a run of short chunks after a placed chunk within the bound is absorbed into it: that chunk becomes the trimmed space-join of itself and the trimmed short chunks, and nothing before it changes |
| Chunker.MergeShortKeepsLongChunks | preprocessing/chunker.py:97-108 | chunks whose size is within `[min, max]` pass the merge pass unchanged |
| Chunker.ChunkCountAfterMerge | preprocessing/chunker.py:95-110 | the pass returns one chunk for the first input chunk plus one per later chunk that reaches `min` |
| Chunker.FirstChunkNeverMerged | preprocessing/chunker.py:97-108 | the first chunk has no predecessor: the first output chunk starts with it |
| Chunker.ChunkText | preprocessing/chunker.py:42-110 | every chunk is within a non-negative `max_tokens`, and no sentences give no chunks |
| Chunker.ChunkTextWithinMax | preprocessing/chunker.py:42-110 | no chunk returned by `chunk_text` exceeds a non-negative `max_tokens` |
| Chunker.ChunkTextEmpty | preprocessing/chunker.py:42-110 | no sentences give no chunks |
| Chunker.ChunkTextFitsInOne | preprocessing/chunker.py:80-110 | sentences that fit together with their joining spaces give exactly one chunk, their space-join |
| Chunker.ChunkTextSingleSentence | preprocessing/chunker.py:42-110 | a single sentence within the bound gives exactly one chunk equal to it |
| Chunker.ChunkId | preprocessing/chunker.py:142 | the id is the base name, `_`, then at least three decimal digits that read back as the ordinal, exactly three below 1000 |
| Chunker.ParsePad3 | preprocessing/chunker.py:142 | the zero-padded ordinal reads back as the ordinal |
| Chunker.ChunkIdInjective | preprocessing/chunker.py:140-142 | two ordinals give the same id of one document only if they are equal |
| Chunker.BaseName | preprocessing/chunker.py:142 | the base name is the longest suffix of the path without `/`: it contains no `/` and is the whole path or preceded by a `/` |
| Metadata.AnyFolderMatches | preprocessing/metadata.py:22-23 | true iff some folder, lower-cased, occurs as a substring of the normalised path |
| Metadata.InferDepartment | preprocessing/metadata.py:18-26 | the name of the first department in configuration order with a matching folder, or `Unknown` when none matches |
| Metadata.UnknownIffNoFolderMatches | preprocessing/metadata.py:21-26 | with no department named `Unknown`, the result is `Unknown` iff no folder of any department matches |
| Metadata.FirstMatchingIndex | preprocessing/metadata.py:21-24 | when some department matches there is a least matching index |
| Metadata.InferDepartmentIgnoresCaseAndSeparator | preprocessing/metadata.py:19 | two paths equal up to ASCII case and `\` versus `/` map to the same department |
| Metadata.UpperAndLowerPathsAgree | preprocessing/metadata.py:19 | lower-casing the path first changes nothing |
| Metadata.EmptyFolderMatchesEveryPath | preprocessing/metadata.py:22-23 | an empty folder string matches every path |
| Metadata.NoFoldersNeverMatches | preprocessing/metadata.py:22-23 | a department without folders never matches |
| Metadata.GetAllowedRoles | preprocessing/metadata.py:29-30 | an unconfigured department has no roles; a configured one (names distinct) has its configured list, or none if it lists none |
| Metadata.UnknownHasNoRoles | preprocessing/metadata.py:29-30 | `Unknown` has no roles unless configured |
| Corpus.DocumentRecords | preprocessing/chunker.py:138-151 | one record per chunk, in chunk order: the i-th (from 0) carries the id of ordinal i + 1 under the path's base name, the chunk, the base name, the department, the roles and the chunk's token count |
| Corpus.RecordsOf | preprocessing/chunker.py:131-151 | one document: clean, chunk with the default bounds, infer the department and its roles, number the chunks; no contract of its own, stated by `Corpus.CorpusRecordsWellFormed` |
| Corpus.BuildCorpus | preprocessing/chunker.py:124-151 | `.md` and `.csv` documents in order, others skipped; no contract of its own, stated by `Corpus.CorpusRecordsWellFormed` |
| Corpus.CorpusRecordsWellFormed | preprocessing/chunker.py:124-153 | every record's `token_count` is the token length of its text and at most 512, and it comes from a `.md`/`.csv` document whose base name, inferred department and role list it carries |
| Corpus.DocumentIdsDistinct | preprocessing/chunker.py:140-142 | within one document chunk ids are pairwise distinct |
| Corpus.RecordsNumbered | preprocessing/chunker.py:140-142 | the records of a document carry the ids of ordinals 1, 2, … under its base name, in chunk order |
| Corpus.NumberedIdsDistinct | preprocessing/chunker.py:140-142 | records numbered from 1 under one name carry pairwise distinct ids |
| Corpus.SameFileNameSameIds | preprocessing/chunker.py:142-147 | ids use the base name only, so same-named files in different folders get the same ids |
| Embedder.CacheOf | app/services/embedder.py:34-37 | the cache's keys are exactly the chunk ids of the lines, and each key maps to a line with that id |
| Embedder.LoadEmbeddingCache | app/services/embedder.py:29-38 | an absent file gives the empty cache; otherwise the keys are exactly the ids of the lines, and every id maps to a line carrying it |
| Embedder.CacheKeepsLastLine | app/services/embedder.py:35-37 | later lines override earlier ones: an id maps to the last line carrying it |
| Embedder.RecordFor | app/services/embedder.py:71-78 | the cached line for a cached id, otherwise the chunk with a fresh embedding of its text; no contract of its own, stated by `Embedder.CachedLineIsReusedWhenStale` |
| Embedder.DeriveRoles | app/services/embedder.py:84-90 | a department lower-casing to `general` gets the six organisation roles, any other the department and `C-Level` |
| Embedder.SerializeRoles | app/services/embedder.py:96 | the comma join of the roles; no contract of its own, `SearchService.ParseSerializedRoles` states that parsing reverses it |
| Embedder.EntryFor | app/services/embedder.py:92-101 | the index entry of a chunk; no contract of its own, stated by `Embedder.EntriesIgnoreAccessibleRoles` and `Embedder.StoredRolesOfDepartment` |
| Embedder.BuildIndex | app/services/embedder.py:68-102 | one cache line and one index entry per chunk, in chunk order, each depending only on its own chunk and the cache |
| Embedder.RewrittenCacheMatchesChunks | app/services/embedder.py:68-104 | the rewritten cache has one line per chunk, in chunk order, with that chunk's id; the ids in it are exactly the chunks' ids, so ids of absent chunks are dropped |
| Embedder.CachedLineIsReusedWhenStale | app/services/embedder.py:73-78 | a cached id wins over changed text: the cached line is kept with its stale text and embedding, while the index receives the current text |
| Embedder.EntriesIgnoreAccessibleRoles | app/services/embedder.py:82-101 | chunks that differ only in `accessible_roles` give identical index entries |
| Embedder.StoredRolesOfDepartment | app/services/embedder.py:82-98 | a department other than `general` (any case) is stored as `"<department>,C-Level"` |
| Embedder.ReloadRewrittenCache | app/services/embedder.py:29-104 | with distinct chunk ids, loading the rewritten cache maps each chunk id to that chunk's line |
| SearchService.ParseRoles | app/services/search_service.py:32-35 | one parsed role per comma field, each field stripped and lower-cased |
| SearchService.Filter | app/services/search_service.py:27-44 | the kept elements are an order-preserving subsequence of the input, holding each element the test keeps exactly as often as the input does and no other |
| SearchService.Admitted | app/services/search_service.py:27-44 | a candidate is kept iff admitted, as many times as it occurs; the kept ones are an order-preserving subsequence of the candidates |
| SearchService.TopCandidates | app/services/search_service.py:19-23 | the retriever sees the first `min(10, n)` candidates |
| SearchService.SearchWithRbac | app/services/search_service.py:15-45 | the retriever; no contract of its own, stated by `SearchService.SearchSelectsAdmitted`, `SearchService.SearchLength` and `SearchService.SuperRoleSeesAll` |
| SearchService.SearchSelectsAdmitted | app/services/search_service.py:15-45 | hits are the admitted candidates among the first ten, in index order, one hit per kept candidate with its text, source, department and distance copied; none is lost unless `k` cuts the list |
| SearchService.SearchLength | app/services/search_service.py:19-45 | at most 10 hits whatever `k` is, and exactly `min(k, admitted)` for `k >= 0` |
| SearchService.SearchKeepsDistanceOrder | app/services/search_service.py:27-45 | a nearest-first ranking gives nearest-first hits |
| SearchService.SuperRoleSeesAll | app/services/search_service.py:16-37 | a role lower-casing to `c-level` gets the first `k` of the ten nearest candidates, unfiltered |
| SearchService.ParseSerializedRoles | app/services/search_service.py:32-35 | parsing a comma-joined role list gives back the roles lower-cased, when there is at least one role and none has a comma or edge whitespace |
| SearchService.DepartmentAdmission | app/services/search_service.py:16-37 | an entry of a non-general department is admitted exactly to `c-level` and to the department's own name, ignoring case |
| SearchService.GeneralAdmission | app/services/search_service.py:16-37 | a `general` entry is admitted exactly to the six organisation roles, ignoring case |
| SearchService.SearchOfOne | app/services/search_service.py:15-45 | a single candidate comes back as one hit iff the lower-cased role admits it, and no hit otherwise |
| SearchService.EmployeeExcludedFromFinance | app/services/search_service.py:15-45 | a Finance entry is not returned to `employees` but is returned to `C-Level` |
| Rag.ContextBlock | app/services/rag.py:6-8 | one `- <text>` bullet per hit, joined by newlines; no contract of its own, stated by `Rag.ContextLinesAreBullets` |
| Rag.BuildPrompt | app/services/rag.py:5-28 | the prompt; no contract of its own, stated by `Rag.PromptRecoversQuery` and `Rag.PromptListsHitTexts` |
| Rag.PromptRecoversQuery | app/services/rag.py:5-28 | the prompt splits, at positions fixed by the lengths, into the fixed instructions, the context block, the question header, the query and the answer footer |
| Rag.PromptListsHitTexts | app/services/rag.py:5-28 | every retrieved text reaches the prompt: with no line break in any text, the context part of the prompt splits on newlines into one `- <text>` bullet per hit, in order |
| Rag.ContextLinesAreBullets | app/services/rag.py:6-8 | the context block splits on newlines into one `- <text>` line per hit, in order, when no text holds a newline |
| Rag.SumDistance | app/services/rag.py:36 | the distance sum is non-negative, and zero iff every distance is zero |
| Rag.ComputeConfidence | app/services/rag.py:31-38 | 0 without hits, otherwise `1/(1+mean distance)`; no contract of its own, stated by `Rag.ConfidenceRange` and `Rag.ConfidenceOrder` |
| Rag.ConfidenceRange | app/services/rag.py:31-38 | confidence is 0 without hits, otherwise in (0, 1], and 1 iff every distance is 0 |
| Rag.ConfidenceOrder | app/services/rag.py:36-37 | a smaller mean distance gives strictly higher confidence; equal means give equal confidence |
| Rag.ConfidenceExample | app/services/rag.py:36-37 | distances 0.1, 0.3, 0.5 give 1/1.3 = 10/13 |
| Rag.Distinct | app/services/rag.py:64 | the source list has no duplicates and exactly the members of its input |
| Rag.Answer | app/services/rag.py:45-70 | the answer assembly after retrieval; no contract of its own, stated by `Rag.RefusalIffIrrelevant`, `Rag.OnlyTopThreeMatter`, `Rag.AnswerNeverBlank` and `Rag.SourcesAreUsedDocuments` |
| Rag.RagPipeline | app/services/rag.py:41-70 | retrieval with the default `k` of 5, then the answer assembly; no contract of its own |
| Rag.RefusalIffIrrelevant | app/services/rag.py:46-51 | the answer is `{"I don't know", [], 0.0}` iff there are no hits or the first hit's distance exceeds 2.0 (2.0 passes) |
| Rag.OnlyTopThreeMatter | app/services/rag.py:54-64 | two hit lists with the same first three hits give the same response |
| Rag.AnswerNeverBlank | app/services/rag.py:57-61 | the answer always has a non-whitespace character: it is the generated text, or `I don't know` |
| Rag.SourcesAreUsedDocuments | app/services/rag.py:54-64 | past the guard, sources are 1 to 3 distinct documents, exactly those of the first three hits, and confidence is in (0, 1] |
| Rbac.TableIsPolicy | app/core/rbac.py:6-13 | the table knows exactly six roles; every role reaches `general`, a departmental role also its own department, `c-level` all five, and nothing else |
| Rbac.RbacCheck | app/core/rbac.py:22-40 | the per-request decision; no contract of its own, stated by `Rbac.CheckFollowsPolicy`, `Rbac.DenialDetails` and `Rbac.CheckIgnoresCase` |
| Rbac.CheckFollowsPolicy | app/core/rbac.py:16-42 | a request is allowed iff the lower-cased role is known and either no department is given or the role reaches the lower-cased department |
| Rbac.DenialDetails | app/core/rbac.py:23-40 | every refusal is a 403; an unknown role gets "Role not recognized", a known one "Access denied for role: <role>" |
| Rbac.CheckIgnoresCase | app/core/rbac.py:23-32 | the decision is the same after lower-casing role and department |
| Rbac.GeneralOpenToAll | app/core/rbac.py:6-13 | every known role opens `general`; `employees` opens only `general` |
| Rbac.SuperRoleOpensAllDepartments | app/core/rbac.py:6-13 | `c-level` opens exactly finance, hr, engineering, marketing and general |
| Validation.Missing | preprocessing/validation_tests.py:41-51 | the missing-key set is empty iff all six required keys are present |
| Validation.FirstMissing | preprocessing/validation_tests.py:50-53 | reports the first record lacking a key, with its index and missing keys, and nothing iff all records are complete |
| Validation.FirstFault | preprocessing/validation_tests.py:57-104 | each per-record check reports the first record it rejects, and nothing iff it accepts all |
| Validation.Validate | preprocessing/validation_tests.py:29-104 | the whole script; no contract of its own, stated by `Validation.ValidateIffAcceptable` |
| Validation.ValidateComplete | preprocessing/validation_tests.py:57-104 | the record checks in script order; no contract of its own, stated by `Validation.ValidateCompleteIffGood` |
| Validation.ValidateIffAcceptable | preprocessing/validation_tests.py:29-104 | validation passes iff the list is non-empty, all records are complete, and each has 300–512 tokens, non-blank text, roles, no `employees` on a finance chunk and `employees` on a general chunk |
| Validation.ValidateCompleteIffGood | preprocessing/validation_tests.py:57-104 | the checks after the field check pass iff there is a record and every record is good |
| Validation.EmptyListFails | preprocessing/validation_tests.py:36-37 | an empty list fails with "no chunks" |
| Validation.FirstIncompleteReported | preprocessing/validation_tests.py:41-53 | the first incomplete record is what validation reports, before any other check |
| Validation.CompleteGoesToRecordChecks | preprocessing/validation_tests.py:50-55 | a non-empty list of complete records proceeds to the record checks |
| Validation.FirstTokenCountReported | preprocessing/validation_tests.py:57-60 | the first record outside [300, 512] tokens is what the record checks report, whatever else is wrong |
| Validation.SourceCheckNeverFails | preprocessing/validation_tests.py:70-73 | a non-empty list always names a source document, so this check cannot fail |
| Validation.EmployeesInFinanceReported | preprocessing/validation_tests.py:84-97 | after the earlier checks pass, the first finance chunk (any case) granting `employees` is reported |
| Validation.GeneralWithoutEmployeesFails | preprocessing/validation_tests.py:99-104 | a general chunk (any case) not granting `employees` makes validation fail |
| Pipeline.ShortDocumentRejected | preprocessing/validation_tests.py:57-60 | a document whose sentences fit in one chunk under 300 tokens yields that one chunk, which the validator rejects for its token count |
| Pipeline.UnmatchedDocumentHasNoRoles | preprocessing/metadata.py:18-30 | a document matching no folder gets `Unknown` and no roles, and the validator's role check rejects each of its records |
| Pipeline.IndexedChunkVisibility | app/services/embedder.py:82-98 | whatever roles a chunk record lists, its index entry is admitted as its department dictates: all six roles for `general`, otherwise `c-level` and the department itself |

## Left out

- Tokenizer: the BPE tokenizer `cl100k_base` is replaced by one token per character. Re-encoding after decoding can change token counts under real BPE; the model does not have that effect. That effect is the reason for the length recheck at preprocessing/chunker.py:103.
- Chunker.MergeShort: for a non-negative max_tokens, one token per character makes the trimmed merge always fit, so the else branch at preprocessing/chunker.py:105-106 runs only for a negative max_tokens (`Chunker.MergeStepShort` states both cases).
- Chunker.FirstPass: the contract states the bound for all inputs; its content is stated for particular shapes (`Chunker.ChunkTextFitsInOne`, `Chunker.FlushSeedsOverlap`, `Chunker.OversizedStepKeepsWords`, `Chunker.OversizedOvertakesBuffer`). No all-inputs word-preservation holds: a flush can cut a buffered word (`Chunker.FlushCutsBufferedWord`), and overlap tails repeat text.
- Chunker.SplitOversized: words longer than the bound are cut by the trim, so word preservation is promised only when each word is within the bound.
- Sentence splitting (NLTK `sent_tokenize`): the sentence list is an input.
- Chunker.BaseName: `os.path.basename` is modelled with `/` as the only separator.
- Strings.Lower: lower-casing affects ASCII letters only; Python's full Unicode `str.lower` is not modelled.
- Strings.IsSpace: whitespace is the code-point set of `str.isspace`. The regular expression `\s` is taken to match the same set.
- Rag.ComputeConfidence: the result is the exact real `1/(1+mean)`; the final `round(x, 2)` and floating-point arithmetic are not modelled.
- Rag.Distinct: `list(set(...))` has an unspecified order. The model keeps first-occurrence order, and the lemmas state only membership and distinctness.
- The generator's exception path: `generate_answer` (app/services/llm.py) is a total function parameter; model loading, truncation to 2048 tokens and decoding are left out.
- The embedding model, the query embedding and ChromaDB (`query`, `add`, duplicate-id handling) are left out. The index's ranked answer is an input, and embeddings are opaque vectors from the parameter `embed`.
- Validation.RawRecord: JSON values of the wrong type (say a string `token_count`) are not modelled; a present field has the type the chunker writes.
- All file, database and log I/O: reading documents, YAML loading of the role config, JSON-lines reading and writing, the cache file and the chunk file. The model works on in-memory values. An absent cache file is `None`.
- Process exit and printing in the validation script: the first failure becomes the returned `Outcome`.
- Authentication (JWT decoding and expiry), the FastAPI routes, the Streamlit frontend and the interactive search CLI are outside the modelled core.
- The role-config order is the YAML mapping's order; the model takes it as a sequence of departments.
