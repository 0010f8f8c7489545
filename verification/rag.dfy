/**
 Answer assembly (`rag_pipeline`): the relevance guard, the three-chunk context, the
 prompt, the empty-answer guard, the confidence score and the source list. The
 language model is the parameter `generate`, standing for `generate_answer`.
 */
module Rag {
  import opened Strings
  import opened SearchService

  /** The refusal text used by both guards. */
  const IDontKnow := "I don't know"

  /** Hits whose nearest distance exceeds this are treated as irrelevant. */
  const RelevanceLimit: real := 2.0

  /** At most this many hits reach the prompt. */
  const ContextSize: int := 3

  datatype Response = Response(answer: string, sources: seq<string>, confidence: real)

  /** The fixed instruction block that opens every prompt, up to and including the
      `Context:` header line. */
  const PromptHead: string :=
    "\nYou are an internal company Q&A assistant.\n\nInstructions:\n"
    + "- Answer using ONLY the information in the context.\n"
    + "- Extract factual points relevant to the question.\n"
    + "- Do NOT add new information.\n"
    + "- Present the answer clearly in 3–5 bullet points.\n"
    + "- If the answer is not present, reply exactly: I don't know.\n\nContext:\n"

  const QuestionHeader: string := "\n\nQuestion:\n"

  const AnswerFooter: string := "\n\nAnswer:\n"

  /** One context bullet per hit. */
  function Bullet(h: Hit): string {
    "- " + h.text
  }

  /** The retrieved-chunks block: the bullets joined by newlines. */
  function ContextBlock(hits: seq<Hit>): string {
    Join(seq(|hits|, i requires 0 <= i < |hits| => Bullet(hits[i])), "\n")
  }

  /** `build_prompt` */
  function BuildPrompt(query: string, hits: seq<Hit>): string {
    PromptHead + ContextBlock(hits) + QuestionHeader + query + AnswerFooter
  }

  /** The prompt reads back as its parts: the fixed instructions, then the context block,
      the question header, the query and the answer footer, each at a position fixed by
      the lengths before it. */
  lemma PromptRecoversQuery(query: string, hits: seq<Hit>)
    ensures var p := BuildPrompt(query, hits);
      var ctxEnd := |PromptHead| + |ContextBlock(hits)|;
      var start := ctxEnd + |QuestionHeader|;
      && start + |query| + |AnswerFooter| == |p|
      && p[..|PromptHead|] == PromptHead
      && p[|PromptHead|..ctxEnd] == ContextBlock(hits)
      && p[ctxEnd..start] == QuestionHeader
      && p[start..|p| - |AnswerFooter|] == query
      && p[|p| - |AnswerFooter|..] == AnswerFooter
  {
    PartsOfConcat(PromptHead, ContextBlock(hits), QuestionHeader, query, AnswerFooter);
  }

  /** Five texts written one after another can be cut back out at their lengths. */
  lemma PartsOfConcat(a: string, b: string, c: string, d: string, e: string)
    ensures var p := a + b + c + d + e;
      && |p| == |a| + |b| + |c| + |d| + |e|
      && p[..|a|] == a
      && p[|a|..|a| + |b|] == b
      && p[|a| + |b|..|a| + |b| + |c|] == c
      && p[|a| + |b| + |c|..|p| - |e|] == d
      && p[|p| - |e|..] == e
  {
  }

  /** Every retrieved text reaches the prompt: when no text has a line break, the
      context part of the prompt splits on newlines into one bullet per hit, in order. */
  lemma PromptListsHitTexts(query: string, hits: seq<Hit>)
    requires |hits| > 0
    requires forall i :: 0 <= i < |hits| ==> '\n' !in hits[i].text
    ensures var p := BuildPrompt(query, hits);
      var context := p[|PromptHead|..|PromptHead| + |ContextBlock(hits)|];
      && |Split(context, '\n')| == |hits|
      && forall i :: 0 <= i < |hits| ==> Split(context, '\n')[i] == "- " + hits[i].text
  {
    PromptRecoversQuery(query, hits);
    ContextLinesAreBullets(hits);
  }

  /** When no chunk text has a line break, the context block splits on newlines into
      one bullet per hit, in order, each carrying the hit's text. */
  lemma ContextLinesAreBullets(hits: seq<Hit>)
    requires |hits| > 0
    requires forall i :: 0 <= i < |hits| ==> '\n' !in hits[i].text
    ensures |Split(ContextBlock(hits), '\n')| == |hits|
    ensures forall i :: 0 <= i < |hits| ==> Split(ContextBlock(hits), '\n')[i] == "- " + hits[i].text
  {
    var bullets := seq(|hits|, i requires 0 <= i < |hits| => Bullet(hits[i]));
    forall k | 0 <= k < |bullets| ensures '\n' !in bullets[k] {
      assert bullets[k] == "- " + hits[k].text;
    }
    SplitJoin(bullets, '\n');
  }

  /** Sum of the hits' distances. */
  function SumDistance(hits: seq<Hit>): (s: real)
    ensures s >= 0.0
    ensures s == 0.0 <==> forall i :: 0 <= i < |hits| ==> hits[i].distance == 0.0
  {
    if |hits| == 0 then 0.0
    else
      var rest := SumDistance(hits[1..]);
      assert forall i :: 1 <= i < |hits| ==> hits[i] == hits[1..][i - 1];
      hits[0].distance + rest
  }

  function MeanDistance(hits: seq<Hit>): (m: real)
    requires |hits| > 0
  {
    SumDistance(hits) / (|hits| as real)
  }

  /** `compute_confidence` without the final rounding to two decimals. */
  function ComputeConfidence(hits: seq<Hit>): real
  {
    if |hits| == 0 then 0.0 else 1.0 / (1.0 + MeanDistance(hits))
  }

  /** The score is 0 without hits and otherwise lies in (0, 1], reaching 1 exactly when
      every distance is zero. */
  lemma ConfidenceRange(hits: seq<Hit>)
    ensures |hits| == 0 ==> ComputeConfidence(hits) == 0.0
    ensures |hits| > 0 ==> 0.0 < ComputeConfidence(hits) <= 1.0
    ensures |hits| > 0 ==>
      (ComputeConfidence(hits) == 1.0 <==> forall i :: 0 <= i < |hits| ==> hits[i].distance == 0.0)
  {
    if |hits| > 0 {
      var m := MeanDistance(hits);
      assert m >= 0.0;
      assert m == 0.0 <==> SumDistance(hits) == 0.0;
      assert 1.0 / (1.0 + m) == 1.0 <==> m == 0.0;
    }
  }

  /** A smaller mean distance gives a strictly higher score, an equal mean the same. */
  lemma ConfidenceOrder(a: seq<Hit>, b: seq<Hit>)
    requires |a| > 0 && |b| > 0
    ensures MeanDistance(a) < MeanDistance(b) ==> ComputeConfidence(a) > ComputeConfidence(b)
    ensures MeanDistance(a) == MeanDistance(b) ==> ComputeConfidence(a) == ComputeConfidence(b)
  {
    var ma, mb := MeanDistance(a), MeanDistance(b);
    assert ma >= 0.0 && mb >= 0.0;
    if ma < mb {
      assert (1.0 + ma) < (1.0 + mb);
      assert 1.0 / (1.0 + ma) > 1.0 / (1.0 + mb);
    }
  }

  /** Three hits at distances 0.1, 0.3 and 0.5 have mean 0.3 and score 1/1.3. */
  lemma ConfidenceExample(h1: Hit, h2: Hit, h3: Hit)
    requires h1.distance == 0.1 && h2.distance == 0.3 && h3.distance == 0.5
    ensures ComputeConfidence([h1, h2, h3]) == 10.0 / 13.0
  {
    var hs := [h1, h2, h3];
    assert hs[1..] == [h2, h3] && hs[1..][1..] == [h3] && hs[1..][1..][1..] == [];
    assert SumDistance([h3]) == 0.5;
    assert SumDistance([h2, h3]) == 0.3 + SumDistance([h3]);
    assert SumDistance(hs) == 0.1 + SumDistance([h2, h3]);
  }

  predicate NoDuplicates(xs: seq<string>) {
    forall i, j :: 0 <= i < j < |xs| ==> xs[i] != xs[j]
  }

  /** The distinct elements of `xs`, each once, in order of first occurrence; the
      source keeps them in a `set`, so only membership and distinctness are promised. */
  function Distinct(xs: seq<string>): (r: seq<string>)
    ensures NoDuplicates(r)
    ensures forall x :: x in r <==> x in xs
    ensures |r| <= |xs|
  {
    if |xs| == 0 then []
    else
      var r := Distinct(xs[..|xs| - 1]);
      var x := xs[|xs| - 1];
      assert xs == xs[..|xs| - 1] + [x];
      if x in r then r else r + [x]
  }

  function SourcesOf(hits: seq<Hit>): seq<string> {
    seq(|hits|, i requires 0 <= i < |hits| => hits[i].source)
  }

  /** `rag_pipeline` after retrieval: `hits` is what the retriever returned. */
  function Answer(query: string, hits: seq<Hit>, generate: string -> string): Response
  {
    if |hits| == 0 || hits[0].distance > RelevanceLimit then
      Response(IDontKnow, [], 0.0)
    else
      var used := Take(hits, ContextSize);
      var raw := generate(BuildPrompt(query, used));
      var answer := if raw == "" || Strip(raw) == "" then IDontKnow else raw;
      Response(answer, Distinct(SourcesOf(used)), ComputeConfidence(used))
  }

  /** `rag_pipeline` end to end: retrieval over the index's ranking, then assembly. */
  function RagPipeline(ranked: seq<Candidate>, query: string, userRole: string, generate: string -> string): Response
  {
    Answer(query, SearchWithRbac(ranked, userRole, DefaultK), generate)
  }

  /** The refusal with no sources and zero confidence comes back exactly when there are
      no hits or the first hit is farther than the relevance limit. */
  lemma RefusalIffIrrelevant(query: string, hits: seq<Hit>, generate: string -> string)
    ensures Answer(query, hits, generate) == Response(IDontKnow, [], 0.0)
        <==> |hits| == 0 || hits[0].distance > RelevanceLimit
  {
    if !(|hits| == 0 || hits[0].distance > RelevanceLimit) {
      var used := Take(hits, ContextSize);
      assert |used| > 0;
      assert SourcesOf(used)[0] in SourcesOf(used);
      assert Answer(query, hits, generate).sources != [];
    }
  }

  /** Only the first three hits influence the response. */
  lemma OnlyTopThreeMatter(query: string, a: seq<Hit>, b: seq<Hit>, generate: string -> string)
    requires Take(a, ContextSize) == Take(b, ContextSize)
    ensures Answer(query, a, generate) == Answer(query, b, generate)
  {
    if |a| > 0 {
      assert a[0] == Take(a, ContextSize)[0];
    }
    if |b| > 0 {
      assert b[0] == Take(b, ContextSize)[0];
    }
  }

  /** The answer text is never blank: either the generated text, when it has a
      non-whitespace character, or the refusal. */
  lemma AnswerNeverBlank(query: string, hits: seq<Hit>, generate: string -> string)
    ensures Strip(Answer(query, hits, generate).answer) != ""
    ensures Answer(query, hits, generate).answer == IDontKnow
        || (|hits| > 0 && Answer(query, hits, generate).answer == generate(BuildPrompt(query, Take(hits, ContextSize))))
  {
    RefusalIsTrimmed();
  }

  lemma RefusalIsTrimmed()
    ensures Strip(IDontKnow) == IDontKnow && IDontKnow != ""
  {
    var s := IDontKnow;
    assert s[0] == 'I' && s[|s| - 1] == 'w';
    StripOfTrimmed(s);
  }

  /** Sources: the distinct source documents of the (at most three) hits used, each
      listed once; the score is the confidence of those same hits. */
  lemma SourcesAreUsedDocuments(query: string, hits: seq<Hit>, generate: string -> string)
    requires |hits| > 0 && hits[0].distance <= RelevanceLimit
    ensures var r := Answer(query, hits, generate);
      && NoDuplicates(r.sources)
      && 1 <= |r.sources| <= ContextSize
      && (forall s :: s in r.sources <==> exists i :: 0 <= i < |hits| && i < ContextSize && hits[i].source == s)
      && 0.0 < r.confidence <= 1.0
  {
    var used := Take(hits, ContextSize);
    var srcs := SourcesOf(used);
    assert srcs[0] in srcs;
    ConfidenceRange(used);
    forall s ensures s in srcs <==> exists i :: 0 <= i < |hits| && i < ContextSize && hits[i].source == s {
      if s in srcs {
        var i :| 0 <= i < |srcs| && srcs[i] == s;
        assert hits[i].source == s;
      }
      if exists i :: 0 <= i < |hits| && i < ContextSize && hits[i].source == s {
        var i :| 0 <= i < |hits| && i < ContextSize && hits[i].source == s;
        assert srcs[i] == s;
      }
    }
  }
}
