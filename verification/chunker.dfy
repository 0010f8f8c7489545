/**
 The token-bounded chunker of the preprocessing stage (`chunk_text` and its trim
 helpers). The tokenizer is fixed to the identity code in which every character is
 one token, so a text and its token sequence are the same `string`, encoding and
 decoding are the identity and `count_tokens` is the length. Sentences are the
 input: the sentence splitter is not part of this model.
 */
module Chunker {
  import opened Strings

  const DefaultMinTokens: int := 300
  const DefaultMaxTokens: int := 512
  const DefaultOverlapTokens: int := 50

  /** `count_tokens`: one token per character. */
  function CountTokens(text: string): nat {
    |text|
  }

  function Min(a: int, b: int): int {
    if a <= b then a else b
  }

  function Max(a: int, b: int): int {
    if a >= b then a else b
  }

  /** Every text in `cs` has at most `maxTokens` tokens. */
  predicate Within(cs: seq<string>, maxTokens: int) {
    forall i :: 0 <= i < |cs| ==> CountTokens(cs[i]) <= maxTokens
  }

  lemma WithinAppend(a: seq<string>, b: seq<string>, maxTokens: int)
    requires Within(a, maxTokens) && Within(b, maxTokens)
    ensures Within(a + b, maxTokens)
  {
    assert forall i :: |a| <= i < |a + b| ==> (a + b)[i] == b[i - |a|];
  }

  /** `trim_to_last_tokens`: the Python slice `tokens[-maxTokens:]`. It is a suffix of
      the text; a positive bound keeps that many trailing tokens (or all), a zero bound
      keeps the whole text because `-0` is `0`, and a negative bound drops leading tokens. */
  function TrimToLastTokens(text: string, maxTokens: int): (r: string)
    ensures |r| <= |text| && r == text[|text| - |r|..]
    ensures maxTokens > 0 ==> |r| == Min(maxTokens, |text|)
    ensures maxTokens == 0 ==> r == text
    ensures maxTokens < 0 ==> |r| == Max(0, |text| + maxTokens)
  {
    DropFront(text, -maxTokens)
  }

  /** `hard_trim_to_max`: a text within the bound is returned unchanged, otherwise the
      Python slice `tokens[:maxTokens]` of it. */
  function HardTrimToMax(text: string, maxTokens: int): (r: string)
    ensures |r| <= |text| && r == text[..|r|]
    ensures CountTokens(text) <= maxTokens ==> r == text
    ensures CountTokens(text) > maxTokens && maxTokens >= 0 ==> |r| == maxTokens
    ensures CountTokens(text) > maxTokens && maxTokens < 0 ==> |r| == Max(0, |text| + maxTokens)
    ensures maxTokens >= 0 ==> (r == text <==> CountTokens(text) <= maxTokens)
  {
    if CountTokens(text) <= maxTokens then text else Take(text, maxTokens)
  }

  // ---------------------------------------------------------------------------
  // Word-by-word fallback for a sentence longer than the bound

  /** State of the inner word loop: pieces emitted so far, the word buffer and its
      running token count (each word counted with one trailing space). */
  datatype WordScan = WordScan(pieces: seq<string>, temp: seq<string>, tempTokens: int)

  function WordStep(w: WordScan, word: string, maxTokens: int): WordScan
  {
    var wordTokens := CountTokens(word + " ");
    if w.tempTokens + wordTokens > maxTokens then
      WordScan(w.pieces + [HardTrimToMax(Join(w.temp, " "), maxTokens)], [word], wordTokens)
    else
      WordScan(w.pieces, w.temp + [word], w.tempTokens + wordTokens)
  }

  /** The inner loop over the words; pieces already emitted are never changed and,
      for a non-negative bound, every emitted piece is within it. */
  function ScanWords(w: WordScan, words: seq<string>, maxTokens: int): (r: WordScan)
    ensures |w.pieces| <= |r.pieces| && r.pieces[..|w.pieces|] == w.pieces
    ensures maxTokens >= 0 && Within(w.pieces, maxTokens) ==> Within(r.pieces, maxTokens)
    decreases |words|
  {
    if |words| == 0 then w
    else ScanWords(WordStep(w, words[0], maxTokens), words[1..], maxTokens)
  }

  /** The pieces an over-long sentence is cut into: the word loop, then the leftover
      word buffer if it is not empty. With a non-negative bound every piece is within
      it; when every word of the sentence is itself within the bound, the pieces carry
      the sentence's words, all of them and in order, since only buffer joins are
      emitted and none of them needs trimming. */
  function SplitOversized(sentence: string, maxTokens: int): (pieces: seq<string>)
    ensures maxTokens >= 0 ==> Within(pieces, maxTokens)
    ensures (forall k :: 0 <= k < |SplitWords(sentence)| ==> CountTokens(SplitWords(sentence)[k]) <= maxTokens)
      ==> WordsOf(pieces) == SplitWords(sentence)
  {
    var words := SplitWords(sentence);
    var w := ScanWords(WordScan([], [], 0), words, maxTokens);
    var tail := if |w.temp| > 0 then [HardTrimToMax(Join(w.temp, " "), maxTokens)] else [];
    assert (forall k :: 0 <= k < |words| ==> CountTokens(words[k]) <= maxTokens)
        ==> WordsOf(w.pieces + tail) == words by {
      if forall k :: 0 <= k < |words| ==> CountTokens(words[k]) <= maxTokens {
        AllWordsKept(words, maxTokens);
      }
    }
    w.pieces + tail
  }

  /** The proof of the word clause of `SplitOversized`. */
  lemma AllWordsKept(words: seq<string>, maxTokens: int)
    requires forall k :: 0 <= k < |words| ==> IsWord(words[k]) && CountTokens(words[k]) <= maxTokens
    ensures var w := ScanWords(WordScan([], [], 0), words, maxTokens);
      var tail := if |w.temp| > 0 then [HardTrimToMax(Join(w.temp, " "), maxTokens)] else [];
      WordsOf(w.pieces + tail) == words
  {
    var w0 := WordScan([], [], 0);
    ScanWordsKeepsWords(w0, words, maxTokens);
    var w := ScanWords(w0, words, maxTokens);
    assert WordsOf(w.pieces) + w.temp == words;
    if |w.temp| > 0 {
      var piece := Join(w.temp, " ");
      assert HardTrimToMax(piece, maxTokens) == piece;
      SplitWordsJoin(w.temp);
      ConcatMapSnoc(SplitWords, w.pieces, piece);
    } else {
      assert w.pieces + [] == w.pieces;
    }
  }

  /** When the first word with its trailing space is already over the bound, the word
      loop flushes its still-empty buffer: the first piece is the empty text. */
  lemma OversizedFirstWordGivesEmptyPiece(sentence: string, maxTokens: int)
    requires maxTokens >= 0
    requires |SplitWords(sentence)| > 0 && CountTokens(SplitWords(sentence)[0]) + 1 > maxTokens
    ensures |SplitOversized(sentence, maxTokens)| >= 2
    ensures SplitOversized(sentence, maxTokens)[0] == ""
  {
    var words := SplitWords(sentence);
    var w0 := WordScan([], [], 0);
    var w1 := WordStep(w0, words[0], maxTokens);
    assert w1.pieces == [""] && w1.temp == [words[0]];
    var w := ScanWords(w1, words[1..], maxTokens);
    assert ScanWords(w0, words, maxTokens) == w;
    assert |w.temp| > 0 by {
      ScanWordsKeepsTemp(w1, words[1..], maxTokens);
    }
    HeadOfPrefix(w.pieces, w1.pieces);
    var tail := [HardTrimToMax(Join(w.temp, " "), maxTokens)];
    assert SplitOversized(sentence, maxTokens) == w.pieces + tail;
  }

  lemma HeadOfPrefix(xs: seq<string>, p: seq<string>)
    requires |p| > 0 && |p| <= |xs| && xs[..|p|] == p
    ensures xs[0] == p[0]
  {
    assert xs[..|p|][0] == xs[0];
  }

  lemma {:induction false} ScanWordsKeepsTemp(w: WordScan, words: seq<string>, maxTokens: int)
    requires |w.temp| > 0
    ensures |ScanWords(w, words, maxTokens).temp| > 0
    decreases |words|
  {
    if |words| > 0 {
      ScanWordsKeepsTemp(WordStep(w, words[0], maxTokens), words[1..], maxTokens);
    }
  }

  /** `f` applied to each element, the results concatenated in order. */
  function ConcatMap<T, U>(f: T -> seq<U>, xs: seq<T>): seq<U>
  {
    if |xs| == 0 then [] else ConcatMap(f, xs[..|xs| - 1]) + f(xs[|xs| - 1])
  }

  lemma ConcatMapSnoc<T, U>(f: T -> seq<U>, xs: seq<T>, x: T)
    ensures ConcatMap(f, xs + [x]) == ConcatMap(f, xs) + f(x)
  {
    assert (xs + [x])[..|xs|] == xs;
  }

  lemma {:induction false} ConcatMapConcat<T, U>(f: T -> seq<U>, a: seq<T>, b: seq<T>)
    ensures ConcatMap(f, a + b) == ConcatMap(f, a) + ConcatMap(f, b)
    decreases |b|
  {
    if |b| == 0 {
      assert a + b == a;
    } else {
      var init := b[..|b| - 1];
      var x := b[|b| - 1];
      calc {
        ConcatMap(f, a + b);
        { assert a + b == (a + init) + [x]; }
        ConcatMap(f, (a + init) + [x]);
        { ConcatMapSnoc(f, a + init, x); }
        ConcatMap(f, a + init) + f(x);
        { ConcatMapConcat(f, a, init); }
        ConcatMap(f, a) + ConcatMap(f, init) + f(x);
        { ConcatMapSnoc(f, init, x); assert b == init + [x]; }
        ConcatMap(f, a) + ConcatMap(f, b);
      }
    }
  }

  /** The words of a list of pieces, piece after piece. */
  function WordsOf(pieces: seq<string>): seq<string>
  {
    ConcatMap(SplitWords, pieces)
  }

  /** The word buffer holds words, its join fits the bound, and its running count is
      that join plus the one trailing space (zero for the empty buffer). */
  predicate WordBufferFits(w: WordScan, maxTokens: int) {
    && (forall k :: 0 <= k < |w.temp| ==> IsWord(w.temp[k]))
    && (|w.temp| == 0 ==> w.tempTokens == 0)
    && (|w.temp| > 0 ==> w.tempTokens == CountTokens(Join(w.temp, " ")) + 1
                         && CountTokens(Join(w.temp, " ")) <= maxTokens)
  }

  /** One word step, for a word within the bound: no word is lost or reordered. */
  lemma WordStepKeepsWords(w: WordScan, word: string, maxTokens: int)
    requires WordBufferFits(w, maxTokens)
    requires IsWord(word) && CountTokens(word) <= maxTokens
    ensures var r := WordStep(w, word, maxTokens);
      && WordBufferFits(r, maxTokens)
      && WordsOf(r.pieces) + r.temp == WordsOf(w.pieces) + w.temp + [word]
  {
    var r := WordStep(w, word, maxTokens);
    if w.tempTokens + CountTokens(word + " ") > maxTokens {
      var piece := Join(w.temp, " ");
      assert HardTrimToMax(piece, maxTokens) == piece;
      SplitWordsJoin(w.temp);
      ConcatMapSnoc(SplitWords, w.pieces, piece);
    } else if |w.temp| > 0 {
      JoinAppend(w.temp, word, " ");
    }
  }

  /** The word loop, for words within the bound: the pieces followed by the buffer hold
      exactly the words seen so far, in order. */
  lemma {:induction false} ScanWordsKeepsWords(w: WordScan, words: seq<string>, maxTokens: int)
    requires WordBufferFits(w, maxTokens)
    requires forall k :: 0 <= k < |words| ==> IsWord(words[k]) && CountTokens(words[k]) <= maxTokens
    ensures var r := ScanWords(w, words, maxTokens);
      && WordBufferFits(r, maxTokens)
      && WordsOf(r.pieces) + r.temp == WordsOf(w.pieces) + w.temp + words
    decreases |words|
  {
    if |words| == 0 {
      assert w.temp + words == w.temp;
    } else {
      var next := WordStep(w, words[0], maxTokens);
      WordStepKeepsWords(w, words[0], maxTokens);
      var rest := words[1..];
      assert forall k :: 0 <= k < |rest| ==> rest[k] == words[k + 1];
      ScanWordsKeepsWords(next, rest, maxTokens);
      assert ScanWords(w, words, maxTokens) == ScanWords(next, rest, maxTokens);
      SnocThenRest(WordsOf(w.pieces) + w.temp, words);
    }
  }

  lemma SnocThenRest(before: seq<string>, words: seq<string>)
    requires |words| > 0
    ensures before + [words[0]] + words[1..] == before + words
  {
    assert [words[0]] + words[1..] == words;
  }

  // ---------------------------------------------------------------------------
  // The sentence loop

  /** State of the sentence loop: chunks emitted, the sentence buffer and its token
      count (the sum of the buffered texts, not counting the joining spaces). */
  datatype Scan = Scan(chunks: seq<string>, current: seq<string>, currentTokens: int)

  /** One iteration of the sentence loop: an over-long sentence is cut into pieces that
      are emitted at once, leaving the buffer alone; a sentence that would overflow the
      buffer closes it as a trimmed chunk and starts the next buffer from that chunk's
      overlap tail; any other sentence is buffered. */
  function Step(st: Scan, sentence: string, maxTokens: int, overlapTokens: int): Scan
  {
    var sentenceTokens := CountTokens(sentence);
    if sentenceTokens > maxTokens then
      Scan(st.chunks + SplitOversized(sentence, maxTokens), st.current, st.currentTokens)
    else if st.currentTokens + sentenceTokens > maxTokens then
      var closed := HardTrimToMax(Join(st.current, " "), maxTokens);
      var overlap := TrimToLastTokens(closed, overlapTokens);
      Scan(st.chunks + [closed], [overlap, sentence], CountTokens(overlap) + sentenceTokens)
    else
      Scan(st.chunks, st.current + [sentence], st.currentTokens + sentenceTokens)
  }

  /** The sentence loop. Chunks are only ever appended, and with a non-negative bound
      every chunk emitted is within it. */
  function ScanSentences(st: Scan, sentences: seq<string>, maxTokens: int, overlapTokens: int): (r: Scan)
    ensures |st.chunks| <= |r.chunks| && r.chunks[..|st.chunks|] == st.chunks
    ensures maxTokens >= 0 && Within(st.chunks, maxTokens) ==> Within(r.chunks, maxTokens)
    decreases |sentences|
  {
    if |sentences| == 0 then st
    else
      var next := Step(st, sentences[0], maxTokens, overlapTokens);
      StepAppendsWithin(st, sentences[0], maxTokens, overlapTokens);
      ScanSentences(next, sentences[1..], maxTokens, overlapTokens)
  }

  /** A loop iteration only appends chunks, each within a non-negative bound. */
  lemma StepAppendsWithin(st: Scan, sentence: string, maxTokens: int, overlapTokens: int)
    ensures var next := Step(st, sentence, maxTokens, overlapTokens);
      && |st.chunks| <= |next.chunks| && next.chunks[..|st.chunks|] == st.chunks
      && (maxTokens >= 0 && Within(st.chunks, maxTokens) ==> Within(next.chunks, maxTokens))
  {
    var next := Step(st, sentence, maxTokens, overlapTokens);
    if maxTokens >= 0 && Within(st.chunks, maxTokens) {
      if CountTokens(sentence) > maxTokens {
        WithinAppend(st.chunks, SplitOversized(sentence, maxTokens), maxTokens);
      } else if st.currentTokens + CountTokens(sentence) > maxTokens {
        var closed := HardTrimToMax(Join(st.current, " "), maxTokens);
        WithinAppend(st.chunks, [closed], maxTokens);
      }
    }
    if CountTokens(sentence) > maxTokens {
      assert next.chunks[..|st.chunks|] == st.chunks;
    }
  }

  /** The sentence loop followed by the flush of a non-empty final buffer. */
  function FirstPass(sentences: seq<string>, maxTokens: int, overlapTokens: int): (r: seq<string>)
    ensures maxTokens >= 0 ==> Within(r, maxTokens)
  {
    var st := ScanSentences(Scan([], [], 0), sentences, maxTokens, overlapTokens);
    var tail := if |st.current| > 0 then [HardTrimToMax(Join(st.current, " "), maxTokens)] else [];
    st.chunks + tail
  }

  // ---------------------------------------------------------------------------
  // The backward-only merge of short chunks

  /** One iteration of the post-pass: a chunk below `minTokens` is merged into the
      previous finalized chunk when the trimmed join fits; otherwise it is appended. */
  function MergeStep(acc: seq<string>, chunk: string, minTokens: int, maxTokens: int): seq<string>
  {
    var c := HardTrimToMax(chunk, maxTokens);
    if CountTokens(c) < minTokens && |acc| > 0 then
      var merged := HardTrimToMax(acc[|acc| - 1] + " " + c, maxTokens);
      if CountTokens(merged) <= maxTokens then acc[..|acc| - 1] + [merged] else acc + [c]
    else
      acc + [c]
  }

  /** The post-pass. Chunks finalized before the last one are never touched again, the
      last one can only grow at its end, and with a non-negative bound the result is
      within it whatever the input chunks are. With a non-negative bound the trimmed join
      always fits, so every short chunk is merged away: one chunk is added for each input
      chunk that reaches `minTokens` once trimmed, and no other. */
  function MergeShort(acc: seq<string>, chunks: seq<string>, minTokens: int, maxTokens: int): (r: seq<string>)
    ensures maxTokens >= 0 && Within(acc, maxTokens) ==> Within(r, maxTokens)
    ensures maxTokens >= 0 && Within(acc, maxTokens) && |acc| > 0 ==>
      && |acc| <= |r|
      && r[..|acc| - 1] == acc[..|acc| - 1]
      && |acc[|acc| - 1]| <= |r[|acc| - 1]|
      && r[|acc| - 1][..|acc[|acc| - 1]|] == acc[|acc| - 1]
    ensures maxTokens >= 0 && |acc| > 0 ==> |r| == |acc| + CountLong(chunks, minTokens, maxTokens)
    decreases |chunks|
  {
    if |chunks| == 0 then acc
    else
      var next := MergeStep(acc, chunks[0], minTokens, maxTokens);
      assert maxTokens >= 0 && Within(acc, maxTokens) ==> Within(next, maxTokens) by {
        if maxTokens >= 0 && Within(acc, maxTokens) {
          MergeStepWithin(acc, chunks[0], minTokens, maxTokens);
        }
      }
      ScanMergePrefix(acc, next, chunks[0], minTokens, maxTokens);
      MergeStepShort(acc, chunks[0], minTokens, maxTokens);
      var r := MergeShort(next, chunks[1..], minTokens, maxTokens);
      assert maxTokens >= 0 && Within(acc, maxTokens) && |acc| > 0 ==> Extends(acc, r) by {
        if maxTokens >= 0 && Within(acc, maxTokens) && |acc| > 0 {
          ExtendsTransitive(acc, next, r);
        }
      }
      r
  }

  /** `b` keeps every element of `a` but the last, and the last only grows at its end. */
  predicate Extends(a: seq<string>, b: seq<string>)
    requires |a| > 0
  {
    && |a| <= |b|
    && b[..|a| - 1] == a[..|a| - 1]
    && |a[|a| - 1]| <= |b[|a| - 1]|
    && b[|a| - 1][..|a[|a| - 1]|] == a[|a| - 1]
  }

  lemma ExtendsTransitive(a: seq<string>, b: seq<string>, c: seq<string>)
    requires |a| > 0 && Extends(a, b) && Extends(b, c)
    ensures Extends(a, c)
  {
    var i := |a| - 1;
    assert c[..i] == c[..|b| - 1][..i] == b[..|b| - 1][..i] == b[..i];
    if |b| == |a| {
      assert c[i][..|b[i]|] == b[i];
      assert c[i][..|a[i]|] == c[i][..|b[i]|][..|a[i]|];
    } else {
      assert c[i] == c[..|b| - 1][i] == b[..|b| - 1][i] == b[i];
    }
  }

  lemma MergeStepWithin(acc: seq<string>, chunk: string, minTokens: int, maxTokens: int)
    requires maxTokens >= 0 && Within(acc, maxTokens)
    ensures Within(MergeStep(acc, chunk, minTokens, maxTokens), maxTokens)
  {
    var c := HardTrimToMax(chunk, maxTokens);
    WithinAppend(acc, [c], maxTokens);
  }

  /** One merge step keeps every earlier chunk and can only extend the last one. */
  lemma ScanMergePrefix(acc: seq<string>, next: seq<string>, chunk: string, minTokens: int, maxTokens: int)
    requires next == MergeStep(acc, chunk, minTokens, maxTokens)
    ensures maxTokens >= 0 && Within(acc, maxTokens) && |acc| > 0 ==>
      && |acc| <= |next|
      && next[..|acc| - 1] == acc[..|acc| - 1]
      && |acc[|acc| - 1]| <= |next[|acc| - 1]|
      && next[|acc| - 1][..|acc[|acc| - 1]|] == acc[|acc| - 1]
  {
    if maxTokens >= 0 && Within(acc, maxTokens) && |acc| > 0 {
      var last := acc[|acc| - 1];
      var c := HardTrimToMax(chunk, maxTokens);
      if CountTokens(c) < minTokens {
        var joined := last + " " + c;
        var merged := HardTrimToMax(joined, maxTokens);
        assert |last| <= maxTokens;
        assert |merged| >= |last|;
        assert merged[..|last|] == joined[..|last|] == last;
      }
    }
  }

  /** One merge step. A chunk that, trimmed to the bound, is below `minTokens` and has a
      predecessor is joined to it with one space and the join trimmed to the bound; with
      a non-negative bound that join always fits, so it replaces the predecessor and
      nothing else changes, while with a negative bound it never fits and the trimmed
      chunk is appended. Every other chunk is appended, trimmed. */
  lemma MergeStepShort(acc: seq<string>, chunk: string, minTokens: int, maxTokens: int)
    ensures var c := HardTrimToMax(chunk, maxTokens);
      var r := MergeStep(acc, chunk, minTokens, maxTokens);
      && (|acc| > 0 && CountTokens(c) < minTokens && maxTokens >= 0 ==>
            r == acc[..|acc| - 1] + [HardTrimToMax(acc[|acc| - 1] + " " + c, maxTokens)])
      && (|acc| > 0 && CountTokens(c) < minTokens && maxTokens < 0 ==> r == acc + [c])
      && (|acc| == 0 || CountTokens(c) >= minTokens ==> r == acc + [c])
  {
  }

  /** For a non-negative bound, trimming before appending changes nothing once the
      result is trimmed again. */
  lemma TrimAbsorbs(x: string, s: string, maxTokens: int)
    requires maxTokens >= 0
    ensures HardTrimToMax(HardTrimToMax(x, maxTokens) + s, maxTokens) == HardTrimToMax(x + s, maxTokens)
  {
    if |x| > maxTokens {
      var t := HardTrimToMax(x, maxTokens);
      assert (t + s)[..maxTokens] == t == (x + s)[..maxTokens];
    }
  }

  /** The chunks, each trimmed to the bound. */
  function TrimAll(chunks: seq<string>, maxTokens: int): (r: seq<string>)
    ensures |r| == |chunks|
    ensures forall i :: 0 <= i < |r| ==> r[i] == HardTrimToMax(chunks[i], maxTokens)
  {
    seq(|chunks|, i requires 0 <= i < |chunks| => HardTrimToMax(chunks[i], maxTokens))
  }

  /** A run of short chunks after the last finalized chunk is absorbed into it: with a
      non-negative bound, that chunk becomes the space-join of itself and the trimmed
      short chunks, trimmed to the bound, and nothing before it changes. */
  lemma {:induction false} MergeShortAbsorbsShort(acc: seq<string>, chunks: seq<string>, minTokens: int, maxTokens: int)
    requires maxTokens >= 0 && |acc| > 0 && CountTokens(acc[|acc| - 1]) <= maxTokens
    requires forall i :: 0 <= i < |chunks| ==> CountTokens(HardTrimToMax(chunks[i], maxTokens)) < minTokens
    ensures MergeShort(acc, chunks, minTokens, maxTokens) == acc[..|acc| - 1] + [Absorbed(acc[|acc| - 1], chunks, maxTokens)]
    decreases |chunks|
  {
    var n := |acc| - 1;
    var last := acc[n];
    if |chunks| == 0 {
      assert [last] + TrimAll(chunks, maxTokens) == [last];
      assert Absorbed(last, chunks, maxTokens) == last;
      assert acc == acc[..n] + [last];
    } else {
      var c := HardTrimToMax(chunks[0], maxTokens);
      var m := HardTrimToMax(last + " " + c, maxTokens);
      var next := acc[..n] + [m];
      var rest := chunks[1..];
      MergeStepShort(acc, chunks[0], minTokens, maxTokens);
      assert MergeShort(acc, chunks, minTokens, maxTokens) == MergeShort(next, rest, minTokens, maxTokens);
      assert forall i :: 0 <= i < |rest| ==> rest[i] == chunks[i + 1];
      assert next[|next| - 1] == m && next[..n] == acc[..n];
      MergeShortAbsorbsShort(next, rest, minTokens, maxTokens);
      AbsorbedChunk(last, chunks, maxTokens);
    }
  }

  /** A chunk followed by the trimmed chunks, space-joined and trimmed to the bound. */
  function Absorbed(last: string, chunks: seq<string>, maxTokens: int): string
  {
    HardTrimToMax(Join([last] + TrimAll(chunks, maxTokens), " "), maxTokens)
  }

  lemma AbsorbedChunk(last: string, chunks: seq<string>, maxTokens: int)
    requires maxTokens >= 0 && |chunks| > 0
    ensures Absorbed(HardTrimToMax(last + " " + HardTrimToMax(chunks[0], maxTokens), maxTokens), chunks[1..], maxTokens)
         == Absorbed(last, chunks, maxTokens)
  {
    var c := HardTrimToMax(chunks[0], maxTokens);
    assert TrimAll(chunks, maxTokens) == [c] + TrimAll(chunks[1..], maxTokens);
    JoinAbsorbs(last, c, TrimAll(chunks[1..], maxTokens), TrimAll(chunks, maxTokens), maxTokens);
  }

  lemma JoinAbsorbs(last: string, c: string, rest: seq<string>, all: seq<string>, maxTokens: int)
    requires maxTokens >= 0 && all == [c] + rest
    ensures HardTrimToMax(Join([HardTrimToMax(last + " " + c, maxTokens)] + rest, " "), maxTokens)
         == HardTrimToMax(Join([last] + all, " "), maxTokens)
  {
    var m := HardTrimToMax(last + " " + c, maxTokens);
    assert ([last] + all)[1..] == all;
    if |rest| == 0 {
      assert [m] + rest == [m];
      assert all == [c];
    } else {
      var y := Join(rest, " ");
      assert ([m] + rest)[1..] == rest;
      assert all[1..] == rest;
      assert Join([m] + rest, " ") == m + " " + y;
      assert Join([last] + all, " ") == last + " " + (c + " " + y);
      TrimAbsorbs(last + " " + c, " " + y, maxTokens);
      assert last + " " + c + " " + y == last + " " + (c + " " + y);
    }
  }

  /** `chunk_text` on an already split sentence list. */
  function ChunkText(sentences: seq<string>, minTokens: int, maxTokens: int, overlapTokens: int): (r: seq<string>)
    ensures maxTokens >= 0 ==> Within(r, maxTokens)
    ensures |sentences| == 0 ==> r == []
  {
    MergeShort([], FirstPass(sentences, maxTokens, overlapTokens), minTokens, maxTokens)
  }

  // ---------------------------------------------------------------------------
  // Properties of the chunker

  /** No chunk exceeds the bound: buffered flushes, word pieces and merges are all
      trimmed. The first pass alone already respects it. */
  lemma ChunkTextWithinMax(sentences: seq<string>, minTokens: int, maxTokens: int, overlapTokens: int)
    requires maxTokens >= 0
    ensures Within(FirstPass(sentences, maxTokens, overlapTokens), maxTokens)
    ensures forall c :: c in ChunkText(sentences, minTokens, maxTokens, overlapTokens) ==> CountTokens(c) <= maxTokens
  {
    var r := ChunkText(sentences, minTokens, maxTokens, overlapTokens);
    assert Within(r, maxTokens);
  }

  /** No sentences, no chunks. */
  lemma ChunkTextEmpty(minTokens: int, maxTokens: int, overlapTokens: int)
    ensures ChunkText([], minTokens, maxTokens, overlapTokens) == []
  {
  }

  /** While the buffered sentences fit, the loop only buffers. */
  lemma {:induction false} ScanFitting(pre: seq<string>, rest: seq<string>, maxTokens: int, overlapTokens: int)
    requires TotalLength(pre + rest) <= maxTokens
    ensures ScanSentences(Scan([], pre, TotalLength(pre)), rest, maxTokens, overlapTokens)
         == Scan([], pre + rest, TotalLength(pre + rest))
    decreases |rest|
  {
    if |rest| > 0 {
      var s := rest[0];
      assert pre + rest == (pre + [s]) + rest[1..];
      TotalLengthAppend(pre, s);
      TotalLengthPrefix(pre + [s], rest[1..]);
      assert Step(Scan([], pre, TotalLength(pre)), s, maxTokens, overlapTokens)
          == Scan([], pre + [s], TotalLength(pre + [s]));
      ScanFitting(pre + [s], rest[1..], maxTokens, overlapTokens);
    } else {
      assert pre + rest == pre;
    }
  }

  lemma {:induction false} TotalLengthPrefix(a: seq<string>, b: seq<string>)
    ensures TotalLength(a) <= TotalLength(a + b)
    decreases |a|
  {
    if |a| > 0 {
      assert (a + b)[1..] == a[1..] + b;
      TotalLengthPrefix(a[1..], b);
    }
  }

  /** A document whose sentences fit in one chunk together with their joining spaces
      gives exactly one chunk: the sentences joined by single spaces. */
  lemma ChunkTextFitsInOne(sentences: seq<string>, minTokens: int, maxTokens: int, overlapTokens: int)
    requires |sentences| > 0
    requires TotalLength(sentences) + |sentences| - 1 <= maxTokens
    ensures ChunkText(sentences, minTokens, maxTokens, overlapTokens) == [Join(sentences, " ")]
  {
    var joined := Join(sentences, " ");
    FirstPassFitsInOne(sentences, maxTokens, overlapTokens);
    assert MergeStep([], joined, minTokens, maxTokens) == [joined];
    assert MergeShort([], [joined], minTokens, maxTokens) == MergeShort([joined], [], minTokens, maxTokens);
  }

  lemma FirstPassFitsInOne(sentences: seq<string>, maxTokens: int, overlapTokens: int)
    requires |sentences| > 0
    requires TotalLength(sentences) + |sentences| - 1 <= maxTokens
    ensures FirstPass(sentences, maxTokens, overlapTokens) == [Join(sentences, " ")]
    ensures CountTokens(Join(sentences, " ")) <= maxTokens
  {
    assert TotalLength([]) == 0;
    assert [] + sentences == sentences;
    ScanFitting([], sentences, maxTokens, overlapTokens);
    var st := ScanSentences(Scan([], [], 0), sentences, maxTokens, overlapTokens);
    assert st == Scan([], sentences, TotalLength(sentences));
    JoinLength(sentences, " ");
    var joined := Join(sentences, " ");
    assert HardTrimToMax(joined, maxTokens) == joined;
  }

  /** A single sentence within the bound is returned as the one chunk. */
  lemma ChunkTextSingleSentence(sentence: string, minTokens: int, maxTokens: int, overlapTokens: int)
    requires CountTokens(sentence) <= maxTokens
    ensures ChunkText([sentence], minTokens, maxTokens, overlapTokens) == [sentence]
  {
    assert TotalLength([sentence]) == |sentence|;
    ChunkTextFitsInOne([sentence], minTokens, maxTokens, overlapTokens);
  }

  /** On a flush, the closed chunk is the trimmed join of the buffer, and the next buffer
      is the overlap tail of that closed (already trimmed) chunk followed by the new
      sentence; with a zero overlap the whole closed chunk is carried over. */
  lemma FlushSeedsOverlap(st: Scan, sentence: string, maxTokens: int, overlapTokens: int)
    requires CountTokens(sentence) <= maxTokens
    requires st.currentTokens + CountTokens(sentence) > maxTokens
    ensures var r := Step(st, sentence, maxTokens, overlapTokens);
      && |r.chunks| == |st.chunks| + 1
      && r.chunks[..|st.chunks|] == st.chunks
      && var closed := r.chunks[|st.chunks|];
      && var joined := Join(st.current, " ");
      && (|joined| <= maxTokens ==> closed == joined)
      && (|joined| > maxTokens ==> closed == joined[..maxTokens])
      && closed == joined[..|closed|]
      && |closed| <= maxTokens
      && |r.current| == 2 && r.current[1] == sentence
      && r.current[0] == closed[|closed| - |r.current[0]|..]
      && (overlapTokens > 0 ==> |r.current[0]| == Min(overlapTokens, |closed|))
      && (overlapTokens == 0 ==> r.current[0] == closed)
      && r.currentTokens == CountTokens(r.current[0]) + CountTokens(sentence)
  {
  }

  /** An over-long sentence that follows buffered sentences which fit together is cut
      into pieces that come out before those sentences: the buffered text is emitted
      only by the final flush, after the pieces. */
  lemma OversizedOvertakesBuffer(pre: seq<string>, t: string, maxTokens: int, overlapTokens: int)
    requires |pre| > 0 && TotalLength(pre) + |pre| - 1 <= maxTokens
    requires CountTokens(t) > maxTokens
    ensures FirstPass(pre + [t], maxTokens, overlapTokens) == SplitOversized(t, maxTokens) + [Join(pre, " ")]
  {
    var st0 := Scan([], [], 0);
    assert TotalLength([]) == 0;
    assert [] + pre == pre;
    ScanFitting([], pre, maxTokens, overlapTokens);
    var st1 := Scan([], pre, TotalLength(pre));
    assert ScanSentences(st0, pre, maxTokens, overlapTokens) == st1;
    ScanSentencesConcat(st0, pre, [t], maxTokens, overlapTokens);
    var st2 := Step(st1, t, maxTokens, overlapTokens);
    assert st2 == Scan(SplitOversized(t, maxTokens), pre, TotalLength(pre));
    assert ScanSentences(st1, [t], maxTokens, overlapTokens) == st2 by {
      assert [t][1..] == [];
    }
    JoinLengthUnitSep(pre, " ");
    assert HardTrimToMax(Join(pre, " "), maxTokens) == Join(pre, " ");
  }

  /** The sentence loop over two lists in a row is the loop over their concatenation. */
  lemma {:induction false} ScanSentencesConcat(st: Scan, a: seq<string>, b: seq<string>, maxTokens: int, overlapTokens: int)
    ensures ScanSentences(st, a + b, maxTokens, overlapTokens)
         == ScanSentences(ScanSentences(st, a, maxTokens, overlapTokens), b, maxTokens, overlapTokens)
    decreases |a|
  {
    if |a| == 0 {
      assert a + b == b;
    } else {
      assert (a + b)[0] == a[0] && (a + b)[1..] == a[1..] + b;
      ScanSentencesConcat(Step(st, a[0], maxTokens, overlapTokens), a[1..], b, maxTokens, overlapTokens);
    }
  }

  /** An over-long sentence whose words are each within the bound adds exactly its
      words, in order, after the words of the chunks already emitted; the buffered
      sentences are not touched. */
  lemma OversizedStepKeepsWords(st: Scan, sentence: string, maxTokens: int, overlapTokens: int)
    requires CountTokens(sentence) > maxTokens
    requires forall k :: 0 <= k < |SplitWords(sentence)| ==> CountTokens(SplitWords(sentence)[k]) <= maxTokens
    ensures var r := Step(st, sentence, maxTokens, overlapTokens);
      && WordsOf(r.chunks) == WordsOf(st.chunks) + SplitWords(sentence)
      && r.current == st.current
  {
    ConcatMapConcat(SplitWords, st.chunks, SplitOversized(sentence, maxTokens));
  }

  /** The flush trims the buffered join, whose spaces the running count leaves out, so a
      buffered word can be cut: with a bound of 4 and overlap 1, "ab" and "cd" are
      buffered at a count of 4, "e" closes them as "ab c", and the next chunk restarts
      from the tail "c". */
  lemma FlushCutsBufferedWord()
    ensures FirstPass(["ab", "cd", "e"], 4, 1) == ["ab c", "c e"]
  {
    var st0 := Scan([], [], 0);
    var st1 := Step(st0, "ab", 4, 1);
    assert st1 == Scan([], ["ab"], 2);
    var st2 := Step(st1, "cd", 4, 1);
    assert st2 == Scan([], ["ab", "cd"], 4);
    assert Join(["ab", "cd"], " ") == "ab cd";
    assert HardTrimToMax("ab cd", 4) == "ab c";
    assert TrimToLastTokens("ab c", 1) == "c";
    var st3 := Step(st2, "e", 4, 1);
    assert st3 == Scan(["ab c"], ["c", "e"], 2);
    assert Join(["c", "e"], " ") == "c e";
    assert ScanSentences(st0, ["ab", "cd", "e"], 4, 1) == st3 by {
      assert ["ab", "cd", "e"][1..] == ["cd", "e"];
      assert ["cd", "e"][1..] == ["e"];
      assert ["e"][1..] == [];
    }
  }

  /** A concrete document showing both quirks of the fallback: with a bound of 2 tokens,
      the sentence "bcd" follows the buffered "a"; its one word is over the bound with its
      space, so an empty piece is emitted, then the word trimmed to "bc", and only then
      the buffered "a". */
  lemma OversizedOvertakesBufferedSentence()
    ensures ChunkText(["a", "bcd"], 0, 2, 1) == ["", "bc", "a"]
  {
    OversizedExampleFirstPass();
    OversizedExampleMerge();
  }

  lemma OversizedExampleSplit()
    ensures SplitOversized("bcd", 2) == ["", "bc"]
  {
    assert SplitWords("bcd") == ["bcd"] by {
      assert WordLength("bcd") == 3;
      assert "bcd"[..3] == "bcd";
      assert "bcd"[3..] == "";
    }
    var w1 := WordStep(WordScan([], [], 0), "bcd", 2);
    assert w1 == WordScan([""], ["bcd"], 4);
    assert ["bcd"][1..] == [];
    assert ScanWords(WordScan([], [], 0), ["bcd"], 2) == ScanWords(w1, [], 2) == w1;
    assert Join(["bcd"], " ") == "bcd";
    assert HardTrimToMax("bcd", 2) == "bc";
  }

  lemma OversizedExampleFirstPass()
    ensures FirstPass(["a", "bcd"], 2, 1) == ["", "bc", "a"]
  {
    OversizedExampleSplit();
    var s1 := Step(Scan([], [], 0), "a", 2, 1);
    assert s1 == Scan([], ["a"], 1);
    var s2 := Step(s1, "bcd", 2, 1);
    assert s2 == Scan(["", "bc"], ["a"], 1);
  }

  lemma OversizedExampleMerge()
    ensures MergeShort([], ["", "bc", "a"], 0, 2) == ["", "bc", "a"]
  {
    var chunks := ["", "bc", "a"];
    assert forall i :: 0 <= i < |chunks| ==> 0 <= CountTokens(chunks[i]) <= 2;
    MergeShortKeepsLongChunks([], chunks, 0, 2);
    assert [] + chunks == chunks;
  }

  /** Chunks already within `[minTokens, maxTokens]` pass the post-pass unchanged. */
  lemma {:induction false} MergeShortKeepsLongChunks(acc: seq<string>, chunks: seq<string>, minTokens: int, maxTokens: int)
    requires forall i :: 0 <= i < |chunks| ==> minTokens <= CountTokens(chunks[i]) <= maxTokens
    ensures MergeShort(acc, chunks, minTokens, maxTokens) == acc + chunks
    decreases |chunks|
  {
    if |chunks| == 0 {
      assert acc + chunks == acc;
    } else {
      assert MergeStep(acc, chunks[0], minTokens, maxTokens) == acc + [chunks[0]];
      MergeShortKeepsLongChunks(acc + [chunks[0]], chunks[1..], minTokens, maxTokens);
      assert acc + [chunks[0]] + chunks[1..] == acc + chunks;
    }
  }

  /** Number of chunks whose trimmed form reaches `minTokens`. */
  function CountLong(chunks: seq<string>, minTokens: int, maxTokens: int): nat
  {
    if |chunks| == 0 then 0
    else (if CountTokens(HardTrimToMax(chunks[0], maxTokens)) >= minTokens then 1 else 0)
         + CountLong(chunks[1..], minTokens, maxTokens)
  }

  lemma ChunkCountAfterMerge(chunks: seq<string>, minTokens: int, maxTokens: int)
    requires maxTokens >= 0 && |chunks| > 0
    ensures |MergeShort([], chunks, minTokens, maxTokens)| == 1 + CountLong(chunks[1..], minTokens, maxTokens)
  {
    var first := MergeStep([], chunks[0], minTokens, maxTokens);
    assert |first| == 1;
  }

  /** The first chunk has no predecessor and is never merged away: the first output chunk
      starts with the (trimmed) first input chunk. */
  lemma FirstChunkNeverMerged(chunks: seq<string>, minTokens: int, maxTokens: int)
    requires maxTokens >= 0 && |chunks| > 0
    ensures var r := MergeShort([], chunks, minTokens, maxTokens);
      var first := HardTrimToMax(chunks[0], maxTokens);
      |r| > 0 && |first| <= |r[0]| && r[0][..|first|] == first
  {
    var first := HardTrimToMax(chunks[0], maxTokens);
    var acc := MergeStep([], chunks[0], minTokens, maxTokens);
    assert acc == [first];
    assert Within(acc, maxTokens);
    var r := MergeShort(acc, chunks[1..], minTokens, maxTokens);
    assert MergeShort([], chunks, minTokens, maxTokens) == r;
    assert Extends(acc, r);
  }

  // ---------------------------------------------------------------------------
  // Chunk identifiers

  function DigitChar(d: nat): char
    requires d < 10
  {
    ('0' as int + d) as char
  }

  /** Decimal digits of `n`, most significant first, no leading zero. */
  function Digits(n: nat): (s: string)
    ensures |s| >= 1
    ensures forall i :: 0 <= i < |s| ==> '0' <= s[i] <= '9'
    ensures n < 10 ==> |s| == 1
    ensures n < 100 ==> |s| <= 2
    ensures n < 1000 ==> |s| <= 3
  {
    if n < 10 then [DigitChar(n)] else Digits(n / 10) + [DigitChar(n % 10)]
  }

  /** Python's `format(n, "03d")` for a non-negative `n`: at least three digits,
      left-padded with zeros. */
  function Pad3(n: nat): (s: string)
    ensures |s| >= 3
    ensures forall i :: 0 <= i < |s| ==> '0' <= s[i] <= '9'
    ensures n < 1000 ==> |s| == 3
  {
    var d := Digits(n);
    if |d| >= 3 then d else seq(3 - |d|, _ => '0') + d
  }

  /** The value of a string of decimal digits. */
  function ParseDigits(s: string): nat
    requires forall i :: 0 <= i < |s| ==> '0' <= s[i] <= '9'
  {
    if |s| == 0 then 0 else ParseDigits(s[..|s| - 1]) * 10 + (s[|s| - 1] as int - '0' as int)
  }

  lemma {:induction false} ParseDigitsOfDigits(n: nat)
    ensures ParseDigits(Digits(n)) == n
  {
    if n >= 10 {
      var d := Digits(n);
      assert d[..|d| - 1] == Digits(n / 10);
      ParseDigitsOfDigits(n / 10);
    }
  }

  lemma {:induction false} ParseDigitsLeadingZero(s: string)
    requires forall i :: 0 <= i < |s| ==> '0' <= s[i] <= '9'
    ensures ParseDigits("0" + s) == ParseDigits(s)
    decreases |s|
  {
    if |s| > 0 {
      assert ("0" + s)[..|s|] == "0" + s[..|s| - 1];
      ParseDigitsLeadingZero(s[..|s| - 1]);
    } else {
      assert "0" + s == "0";
    }
  }

  /** Zero padding does not change the value: the padded ordinal reads back as itself. */
  lemma ParsePad3(n: nat)
    ensures ParseDigits(Pad3(n)) == n
  {
    var d := Digits(n);
    ParseDigitsOfDigits(n);
    if |d| == 1 {
      assert Pad3(n) == "0" + ("0" + d);
      ParseDigitsLeadingZero(d);
      ParseDigitsLeadingZero("0" + d);
    } else if |d| == 2 {
      assert Pad3(n) == "0" + d;
      ParseDigitsLeadingZero(d);
    }
  }

  /** The chunk id of the `ordinal`-th chunk (counted from 1) of a document. */
  function ChunkId(baseName: string, ordinal: nat): (id: string)
    ensures |id| >= |baseName| + 4
    ensures id[..|baseName|] == baseName && id[|baseName|] == '_'
    ensures forall i :: |baseName| < i < |id| ==> '0' <= id[i] <= '9'
    ensures ParseDigits(id[|baseName| + 1..]) == ordinal
    ensures ordinal < 1000 ==> |id| == |baseName| + 4
  {
    var id := baseName + "_" + Pad3(ordinal);
    assert id[|baseName| + 1..] == Pad3(ordinal);
    ParsePad3(ordinal);
    id
  }

  /** Distinct ordinals in one document give distinct chunk ids. */
  lemma ChunkIdInjective(baseName: string, i: nat, j: nat)
    requires ChunkId(baseName, i) == ChunkId(baseName, j)
    ensures i == j
  {
    var a := ChunkId(baseName, i);
    var b := ChunkId(baseName, j);
    assert a[|baseName| + 1..] == Pad3(i);
    assert b[|baseName| + 1..] == Pad3(j);
    ParsePad3(i);
    ParsePad3(j);
  }

  /** Position just after the last `/` of a path, or 0 when it has none. */
  function AfterLastSlash(path: string): (i: nat)
    ensures i <= |path|
    ensures i > 0 ==> path[i - 1] == '/'
    ensures forall k :: i <= k < |path| ==> path[k] != '/'
  {
    if |path| == 0 then 0
    else if path[|path| - 1] == '/' then |path|
    else AfterLastSlash(path[..|path| - 1])
  }

  /** `os.path.basename` with `/` as the separator. */
  function BaseName(path: string): (b: string)
    ensures '/' !in b
    ensures |b| <= |path| && b == path[|path| - |b|..]
    ensures |b| == |path| || SlashAt(path, |path| - |b| - 1)
  {
    path[AfterLastSlash(path)..]
  }

  predicate SlashAt(s: string, i: int) {
    0 <= i < |s| && s[i] == '/'
  }
}
