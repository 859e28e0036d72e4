/**
 The chunks of one message: one text for the message as a whole and one for
 each piece of its body, under ids that tell them apart.
 */
module MessageChunks {
  import opened Basics
  import opened Chunker
  import Embeddings

  const MESSAGE_PREFIX_CHARS: nat := 2048

  /** What extraction gives: the header lines of the message text, and the body. */
  datatype Extracted = Extracted(header: string, body: string)

  predicate Blank(text: string) {
    SplitWhitespace(text) == []
  }

  function Take(text: string, n: nat): string {
    if |text| <= n then text else text[..n]
  }

  function MessageLevelText(e: Extracted): string {
    Take(e.header + Take(SplitOversizedWords(e.body), MESSAGE_PREFIX_CHARS), MAX_EMBED_INPUT_CHARS)
  }

  /** The header lines, then up to 2048 characters of the cut body, and of both together the first 1000. */
  lemma {:induction false} MessageLevelTextIs(e: Extracted)
    ensures MessageLevelText(e) <= e.header + SplitOversizedWords(e.body)
    ensures
      var body := SplitOversizedWords(e.body);
      |MessageLevelText(e)| == Min(1000, |e.header| + Min(2048, |body|))
  {
  }

  function ChunkFor(m: Embeddings.Message, kind: string, ordinal: nat, text: string): Embeddings.Chunk {
    Embeddings.Chunk(Embeddings.ChunkId(m.account, m.messageId, m.contentId, kind, ordinal), text)
  }

  /** Blank texts are left out, but keep their ordinal. */
  function BodyFrom(m: Embeddings.Message, texts: seq<string>): seq<Embeddings.Chunk> {
    if texts == [] then []
    else
      var n := |texts| - 1;
      BodyFrom(m, texts[..n]) + (if Blank(texts[n]) then [] else [ChunkFor(m, "body", n, texts[n])])
  }

  function ChunksOf(m: Embeddings.Message, e: Extracted): seq<Embeddings.Chunk> {
    [ChunkFor(m, "message", 0, MessageLevelText(e))] + BodyFrom(m, Chunks(SplitOversizedWords(e.body)))
  }

  lemma {:induction false} BodyFromOneMore(m: Embeddings.Message, texts: seq<string>, ordinal: nat)
    requires ordinal < |texts|
    ensures BodyFrom(m, texts[..ordinal + 1]) ==
            BodyFrom(m, texts[..ordinal]) +
            (if Blank(texts[ordinal]) then [] else [ChunkFor(m, "body", ordinal, texts[ordinal])])
  {
    assert texts[..ordinal + 1][..ordinal] == texts[..ordinal];
  }

  method ChunksForMessage(m: Embeddings.Message, e: Extracted) returns (chunks: seq<Embeddings.Chunk>)
    ensures chunks == ChunksOf(m, e)
  {
    chunks := [ChunkFor(m, "message", 0, MessageLevelText(e))];
    var texts := BodyChunks(SplitOversizedWords(e.body));
    chunks := PushBodyChunks(m, texts, chunks);
  }

  /** The loop of `chunks_for_message`. */
  method PushBodyChunks(m: Embeddings.Message, texts: seq<string>, first: seq<Embeddings.Chunk>)
    returns (chunks: seq<Embeddings.Chunk>)
    ensures chunks == first + BodyFrom(m, texts)
  {
    chunks := first;
    for ordinal := 0 to |texts|
      invariant chunks == first + BodyFrom(m, texts[..ordinal])
    {
      BodyFromOneMore(m, texts, ordinal);
      if !Blank(texts[ordinal]) {
        chunks := chunks + [ChunkFor(m, "body", ordinal, texts[ordinal])];
      }
    }
    assert texts[..|texts|] == texts;
  }

  // ----- no body text is ever blank -----

  predicate NoneBlank(texts: seq<string>) {
    forall i :: 0 <= i < |texts| ==> !Blank(texts[i])
  }

  lemma {:induction false} WordIsNotBlank(w: string)
    requires IsWord(w)
    ensures !Blank(w)
  {
    SplitOfJoin([w]);
  }

  lemma {:induction false} CutIsNotBlank(w: string)
    requires IsWord(w)
    ensures NoneBlank(Cut(w))
  {
    CutConserves(w);
    forall i | 0 <= i < |Cut(w)|
      ensures !Blank(Cut(w)[i])
    {
      WordIsNotBlank(Cut(w)[i]);
    }
  }

  lemma {:induction false} PackIsNotBlank(words: seq<string>, held: seq<string>)
    requires AreWords(words) && AreWords(held)
    ensures NoneBlank(Pack(words, Join(held)))
    decreases |words|
  {
    var current := Join(held);
    SplitOfJoin(held);
    JoinEmpty(held);
    assert NoneBlank(Started(current));
    if words != [] {
      var word := words[0];
      if |word| > MAX_EMBED_INPUT_CHARS {
        CutIsNotBlank(word);
        PackIsNotBlank(words[1..], []);
      } else if current != "" && |current| + 1 + |word| > MAX_EMBED_INPUT_CHARS {
        PackIsNotBlank(words[1..], [word]);
      } else {
        JoinAppend(held, word);
        PackIsNotBlank(words[1..], held + [word]);
      }
    }
  }

  lemma {:induction false} PackedIsNotBlank(words: seq<string>)
    requires AreWords(words) && words != []
    ensures NoneBlank(Packed(Join(words)))
  {
    SplitOfJoin(words);
    PackIsNotBlank(words, []);
  }

  lemma {:induction false} ChunksFromNotBlank(words: seq<string>, start: nat)
    requires AreWords(words) && start < |words|
    ensures NoneBlank(ChunksFrom(words, start))
    decreases |words| - start
  {
    ChunksFromStep(words, start);
    var end := Min(start + BODY_CHUNK_WORDS, |words|);
    PackedIsNotBlank(words[start..end]);
    if end != |words| {
      ChunksFromNotBlank(words, end - BODY_CHUNK_OVERLAP);
    }
  }

  lemma {:induction false} NoBodyTextIsBlank(body: string)
    ensures NoneBlank(Chunks(body))
  {
    var words := SplitWhitespace(body);
    if words != [] {
      ChunksFromNotBlank(words, 0);
      assert Windows(words) == WindowsFrom(words, 0);
    }
  }

  // ----- theorems -----

  lemma {:induction false} BodyFromAll(m: Embeddings.Message, texts: seq<string>)
    requires NoneBlank(texts)
    ensures |BodyFrom(m, texts)| == |texts|
    ensures forall i :: 0 <= i < |texts| ==> BodyFrom(m, texts)[i] == ChunkFor(m, "body", i, texts[i])
  {
    if texts != [] {
      BodyFromAll(m, texts[..|texts| - 1]);
    }
  }

  /** The message-level chunk, then one chunk for each of `texts`, numbered from 0. */
  ghost predicate IsList(m: Embeddings.Message, chunks: seq<Embeddings.Chunk>, first: string, texts: seq<string>) {
    && |chunks| == 1 + |texts|
    && chunks[0] == ChunkFor(m, "message", 0, first)
    && forall i :: 0 <= i < |texts| ==> chunks[i + 1] == ChunkFor(m, "body", i, texts[i])
  }

  lemma {:induction false} ListOfTexts(m: Embeddings.Message, first: string, texts: seq<string>)
    requires NoneBlank(texts)
    ensures IsList(m, [ChunkFor(m, "message", 0, first)] + BodyFrom(m, texts), first, texts)
  {
    BodyFromAll(m, texts);
  }

  lemma {:induction false} ListIsDistinct(
      m: Embeddings.Message, chunks: seq<Embeddings.Chunk>, first: string, texts: seq<string>)
    requires IsList(m, chunks, first, texts)
    ensures Embeddings.DistinctIds(chunks)
    ensures forall c :: c in chunks ==> c.id.account == m.account && c.id.messageId == m.messageId
  {
    assert "message"[0] != "body"[0];
    forall i | 0 <= i < |chunks|
      ensures chunks[i].id == Embeddings.ChunkId(m.account, m.messageId, m.contentId,
                                if i == 0 then "message" else "body", if i == 0 then 0 else i - 1)
    {
      if i > 0 {
        assert chunks[i - 1 + 1] == ChunkFor(m, "body", i - 1, texts[i - 1]);
      }
    }
  }

  /**
   A message has one chunk more than its body has texts, in order and within
   the bound: the test for blank texts never drops one, so ordinals have no
   gaps.
   */
  lemma {:induction false} ChunksAreTheBodyTexts(m: Embeddings.Message, e: Extracted)
    ensures IsList(m, ChunksOf(m, e), MessageLevelText(e), Chunks(SplitOversizedWords(e.body)))
    ensures |MessageLevelText(e)| <= MAX_EMBED_INPUT_CHARS && Within(Chunks(SplitOversizedWords(e.body)))
  {
    NoBodyTextIsBlank(SplitOversizedWords(e.body));
    ListOfTexts(m, MessageLevelText(e), Chunks(SplitOversizedWords(e.body)));
    ChunksWithinBound(SplitOversizedWords(e.body));
  }

  lemma {:induction false} ChunkIdsAreDistinct(m: Embeddings.Message, e: Extracted)
    ensures ChunksOf(m, e) != [] && Embeddings.DistinctIds(ChunksOf(m, e))
    ensures forall c :: c in ChunksOf(m, e) ==> c.id.account == m.account && c.id.messageId == m.messageId
  {
    ChunksAreTheBodyTexts(m, e);
    ListIsDistinct(m, ChunksOf(m, e), MessageLevelText(e), Chunks(SplitOversizedWords(e.body)));
  }

  /** The source of an embedding run: extraction, which may fail, and then chunking. */
  function SourceOf(
      extract: Embeddings.Message -> Option<Extracted>, embed: seq<string> -> Option<seq<Embeddings.Vector>>)
    : Embeddings.Source
  {
    Embeddings.Source(
      (m: Embeddings.Message) => if extract(m).Some? then Some(ChunksOf(m, extract(m).value)) else None,
      embed)
  }

  /** Whatever is extracted, its chunks are as the embedding store relies on them. */
  lemma {:induction false} SourceIsWellChunked(
      extract: Embeddings.Message -> Option<Extracted>, embed: seq<string> -> Option<seq<Embeddings.Vector>>)
    ensures Embeddings.WellChunked(SourceOf(extract, embed))
  {
    forall m | extract(m).Some?
      ensures ChunksOf(m, extract(m).value) != [] && Embeddings.DistinctIds(ChunksOf(m, extract(m).value))
      ensures forall c :: c in ChunksOf(m, extract(m).value) ==>
                c.id.account == m.account && c.id.messageId == m.messageId
    {
      ChunkIdsAreDistinct(m, extract(m).value);
    }
  }
}
