/**
 Splitting a message body into texts short enough to embed: words longer than
 the bound are cut, words are grouped into overlapping windows, and each window
 is packed greedily into texts within the bound.
 */
module Chunker {
  import opened Basics

  const BODY_CHUNK_WORDS: nat := 600
  const BODY_CHUNK_OVERLAP: nat := 75
  const MAX_EMBED_INPUT_CHARS: nat := 1000

  /** The Unicode White_Space characters. */
  predicate IsWhitespace(c: char) {
    || '\t' <= c <= '\r' || c == ' ' || c == '\U{85}' || c == '\U{A0}' || c == '\U{1680}'
    || '\U{2000}' <= c <= '\U{200A}' || c == '\U{2028}' || c == '\U{2029}' || c == '\U{202F}'
    || c == '\U{205F}' || c == '\U{3000}'
  }

  /** Those are 25 characters, by code point. */
  lemma {:induction false} WhitespaceIs(c: char)
    ensures IsWhitespace(c) <==>
              c as int in {9, 10, 11, 12, 13, 32, 0x85, 0xA0, 0x1680, 0x2000, 0x2001, 0x2002, 0x2003, 0x2004, 0x2005,
                0x2006, 0x2007, 0x2008, 0x2009, 0x200A, 0x2028, 0x2029, 0x202F, 0x205F, 0x3000}
  {
  }

  predicate IsWord(w: string) {
    w != "" && forall i :: 0 <= i < |w| ==> !IsWhitespace(w[i])
  }

  ghost predicate AreWords(words: seq<string>) {
    forall i :: 0 <= i < |words| ==> IsWord(words[i])
  }

  // ----- splitting at whitespace and joining with blanks -----

  function WordLength(text: string): (n: nat)
    ensures n <= |text| && (forall i :: 0 <= i < n ==> !IsWhitespace(text[i]))
    ensures n < |text| ==> IsWhitespace(text[n])
  {
    if text == "" || IsWhitespace(text[0]) then 0 else 1 + WordLength(text[1..])
  }

  function SplitWhitespace(text: string): (words: seq<string>)
    ensures AreWords(words)
  {
    if text == "" then []
    else if IsWhitespace(text[0]) then SplitWhitespace(text[1..])
    else [text[..WordLength(text)]] + SplitWhitespace(text[WordLength(text)..])
  }

  function Join(words: seq<string>): string {
    if words == [] then ""
    else if |words| == 1 then words[0]
    else words[0] + " " + Join(words[1..])
  }

  lemma {:induction false} WordLengthOfWord(w: string, rest: string)
    requires forall i :: 0 <= i < |w| ==> !IsWhitespace(w[i])
    requires rest == "" || IsWhitespace(rest[0])
    ensures WordLength(w + rest) == |w|
  {
    if w == "" {
      assert w + rest == rest;
    } else {
      assert (w + rest)[1..] == w[1..] + rest;
      WordLengthOfWord(w[1..], rest);
    }
  }

  lemma {:induction false} SplitFirstWord(w: string, rest: string)
    requires IsWord(w) && (rest == "" || IsWhitespace(rest[0]))
    ensures SplitWhitespace(w + rest) == [w] + SplitWhitespace(rest)
  {
    WordLengthOfWord(w, rest);
    assert (w + rest)[0] == w[0];
    assert (w + rest)[..|w|] == w && (w + rest)[|w|..] == rest;
  }

  /** Splitting undoes joining. */
  lemma {:induction false} SplitOfJoin(words: seq<string>)
    requires AreWords(words)
    ensures SplitWhitespace(Join(words)) == words
  {
    if |words| == 1 {
      SplitFirstWord(words[0], "");
      assert words[0] + "" == words[0];
    } else if |words| > 1 {
      var rest := " " + Join(words[1..]);
      assert rest[1..] == Join(words[1..]);
      assert Join(words) == words[0] + rest;
      SplitFirstWord(words[0], rest);
      SplitOfJoin(words[1..]);
      assert words == [words[0]] + words[1..];
    }
  }

  // ----- cutting long words -----

  /** Pieces of exactly the bound, the last one shorter or equal. */
  function Cut(word: string): (parts: seq<string>)
    ensures forall i :: 0 <= i < |parts| ==> |parts[i]| <= MAX_EMBED_INPUT_CHARS
    decreases |word|
  {
    if |word| <= MAX_EMBED_INPUT_CHARS then [word]
    else [word[..MAX_EMBED_INPUT_CHARS]] + Cut(word[MAX_EMBED_INPUT_CHARS..])
  }

  lemma {:induction false} CutConserves(word: string)
    ensures Flatten(Cut(word)) == word
    ensures IsWord(word) ==> AreWords(Cut(word))
    decreases |word|
  {
    if |word| > MAX_EMBED_INPUT_CHARS {
      CutConserves(word[MAX_EMBED_INPUT_CHARS..]);
      assert word == word[..MAX_EMBED_INPUT_CHARS] + word[MAX_EMBED_INPUT_CHARS..];
    }
  }

  /** Only the last piece is shorter than the bound, and it is not empty. */
  lemma {:induction false} CutIsFull(word: string)
    requires word != ""
    ensures Cut(word) != [] && 0 < |Cut(word)[|Cut(word)| - 1]| <= 1000
    ensures forall i :: 0 <= i < |Cut(word)| - 1 ==> |Cut(word)[i]| == 1000
    decreases |word|
  {
    if |word| > MAX_EMBED_INPUT_CHARS {
      CutIsFull(word[MAX_EMBED_INPUT_CHARS..]);
    }
  }

  lemma {:induction false} CutPrefix(done: string, rest: string)
    requires |done| % MAX_EMBED_INPUT_CHARS == 0 && done != "" && rest != ""
    ensures Cut(done + rest) == Cut(done) + Cut(rest)
    decreases |done|
  {
    var whole := done + rest;
    assert |done| >= MAX_EMBED_INPUT_CHARS;
    assert whole[..MAX_EMBED_INPUT_CHARS] == done[..MAX_EMBED_INPUT_CHARS];
    if |done| == MAX_EMBED_INPUT_CHARS {
      assert whole[MAX_EMBED_INPUT_CHARS..] == rest;
      assert done[..MAX_EMBED_INPUT_CHARS] == done;
    } else {
      assert whole[MAX_EMBED_INPUT_CHARS..] == done[MAX_EMBED_INPUT_CHARS..] + rest;
      CutPrefix(done[MAX_EMBED_INPUT_CHARS..], rest);
    }
  }

  /** The pieces of the part of a word up to `to`, of which there are none at first. */
  function CutUpTo(word: string, to: nat): seq<string>
    requires to <= |word|
  {
    if to == 0 then [] else Cut(word[..to])
  }

  /** A piece taken at a multiple of the bound is the next piece of the cut. */
  lemma {:induction false} CutNext(word: string, from: nat, to: nat)
    requires from < to <= |word| && from % MAX_EMBED_INPUT_CHARS == 0 && to - from <= MAX_EMBED_INPUT_CHARS
    ensures CutUpTo(word, to) == CutUpTo(word, from) + [word[from..to]]
  {
    assert word[..to] == word[..from] + word[from..to];
    if from > 0 {
      CutPrefix(word[..from], word[from..to]);
    }
  }

  lemma {:induction false} CutWhole(word: string)
    requires word != ""
    ensures CutUpTo(word, |word|) == Cut(word)
  {
    assert word[..|word|] == word;
  }

  lemma {:induction false} OneCharMore(word: string, from: nat, i: nat)
    requires from <= i < |word|
    ensures word[from..i] + [word[i]] == word[from..i + 1]
  {
  }

  /** The loop of `split_word`: collect characters, start a new part at the bound. */
  method SplitWord(word: string) returns (parts: seq<string>)
    ensures parts == Cut(word)
  {
    if |word| <= MAX_EMBED_INPUT_CHARS {
      return [word];
    }
    parts := [];
    var current := "";
    ghost var from := 0;
    for i := 0 to |word|
      invariant from <= i && i - from < MAX_EMBED_INPUT_CHARS && from % MAX_EMBED_INPUT_CHARS == 0
      invariant current == word[from..i]
      invariant parts == CutUpTo(word, from)
    {
      OneCharMore(word, from, i);
      current := current + [word[i]];
      if |current| >= MAX_EMBED_INPUT_CHARS {
        CutNext(word, from, i + 1);
        parts := parts + [current];
        current := "";
        from := i + 1;
      }
    }
    if current != "" {
      CutNext(word, from, |word|);
      parts := parts + [current];
    }
    CutWhole(word);
  }

  function CutAll(words: seq<string>): seq<string> {
    if words == [] then [] else Cut(words[0]) + CutAll(words[1..])
  }

  function SplitOversizedWords(text: string): string {
    Join(CutAll(SplitWhitespace(text)))
  }

  ghost predicate Within(texts: seq<string>) {
    forall i :: 0 <= i < |texts| ==> |texts[i]| <= MAX_EMBED_INPUT_CHARS
  }

  function Solid(text: string): string {
    if text == "" then ""
    else if IsWhitespace(text[0]) then Solid(text[1..])
    else [text[0]] + Solid(text[1..])
  }

  lemma {:induction false} SolidConcat(a: string, b: string)
    ensures Solid(a + b) == Solid(a) + Solid(b)
  {
    if a == "" {
      assert a + b == b;
    } else {
      assert (a + b)[1..] == a[1..] + b;
      SolidConcat(a[1..], b);
    }
  }

  lemma {:induction false} SolidWord(w: string)
    requires forall i :: 0 <= i < |w| ==> !IsWhitespace(w[i])
    ensures Solid(w) == w
  {
    if w != "" {
      SolidWord(w[1..]);
    }
  }

  lemma {:induction false} WordsAreSolid(text: string)
    ensures Flatten(SplitWhitespace(text)) == Solid(text)
    decreases |text|
  {
    if text != "" {
      if IsWhitespace(text[0]) {
        WordsAreSolid(text[1..]);
      } else {
        var n := WordLength(text);
        WordsAreSolid(text[n..]);
        assert text == text[..n] + text[n..];
        SolidConcat(text[..n], text[n..]);
        SolidWord(text[..n]);
      }
    }
  }

  lemma {:induction false} CutAllConserves(words: seq<string>)
    requires AreWords(words)
    ensures Flatten(CutAll(words)) == Flatten(words)
    ensures AreWords(CutAll(words)) && Within(CutAll(words))
  {
    if words != [] {
      CutConserves(words[0]);
      CutAllConserves(words[1..]);
      FlattenConcat(Cut(words[0]), CutAll(words[1..]));
    }
  }

  /** Cutting keeps the sequence of non-whitespace characters and leaves only words within the bound. */
  lemma {:induction false} SplitOversizedConserves(text: string)
    ensures Solid(SplitOversizedWords(text)) == Solid(text)
    ensures Within(SplitWhitespace(SplitOversizedWords(text)))
  {
    var words := SplitWhitespace(text);
    CutAllConserves(words);
    SplitOfJoin(CutAll(words));
    WordsAreSolid(text);
    WordsAreSolid(SplitOversizedWords(text));
  }

  // ----- packing -----

  function Started(current: string): seq<string> {
    if current == "" then [] else [current]
  }

  function Appended(current: string, word: string): string {
    if current == "" then word else current + " " + word
  }

  /** The texts one word completes, and the text it leaves in progress. */
  function PackOne(word: string, current: string): (seq<string>, string) {
    if |word| > MAX_EMBED_INPUT_CHARS then (Started(current) + Cut(word), "")
    else if current != "" && |current| + 1 + |word| > MAX_EMBED_INPUT_CHARS then ([current], word)
    else ([], Appended(current, word))
  }

  function Pack(words: seq<string>, current: string): seq<string> {
    if words == [] then Started(current)
    else PackOne(words[0], current).0 + Pack(words[1..], PackOne(words[0], current).1)
  }

  function Packed(text: string): seq<string> {
    if |text| <= MAX_EMBED_INPUT_CHARS then [text] else Pack(SplitWhitespace(text), "")
  }

  lemma {:induction false} PackFrom(words: seq<string>, i: nat, current: string)
    requires i < |words|
    ensures Pack(words[i..], current) ==
              PackOne(words[i], current).0 + Pack(words[i + 1..], PackOne(words[i], current).1)
  {
    assert words[i..][0] == words[i] && words[i..][1..] == words[i + 1..];
  }

  /** The loop of `split_long_text`. */
  method SplitLongText(text: string) returns (parts: seq<string>)
    ensures parts == Packed(text)
  {
    if |text| <= MAX_EMBED_INPUT_CHARS {
      return [text];
    }
    parts := [];
    var current := "";
    var words := SplitWhitespace(text);
    ghost var goal := Pack(words, "");
    assert words[0..] == words;
    for i := 0 to |words|
      invariant parts + Pack(words[i..], current) == goal
    {
      PackFrom(words, i, current);
      var completed, next := PackWord(words[i], current);
      Regroup(parts, completed, Pack(words[i + 1..], next));
      parts := parts + completed;
      current := next;
    }
    if current != "" {
      parts := parts + [current];
    }
  }

  method PackWord(word: string, current0: string) returns (parts: seq<string>, current: string)
    ensures (parts, current) == PackOne(word, current0)
  {
    parts, current := [], current0;
    if |word| > MAX_EMBED_INPUT_CHARS {
      if current != "" {
        parts := parts + [current];
        current := "";
      }
      var pieces := SplitWord(word);
      parts := parts + pieces;
      assert parts == Started(current0) + Cut(word);
      return;
    }
    if current != "" && |current| + 1 + |word| > MAX_EMBED_INPUT_CHARS {
      parts := parts + [current];
      current := "";
    }
    assert parts == PackOne(word, current0).0;
    if current != "" {
      current := current + " ";
    }
    assert "" + word == word;
    current := current + word;
  }

  lemma {:induction false} PackWithin(words: seq<string>, current: string)
    requires |current| <= MAX_EMBED_INPUT_CHARS
    ensures Within(Pack(words, current))
  {
    if words != [] {
      PackWithin(words[1..], PackOne(words[0], current).1);
    }
  }

  function WordsOfTexts(texts: seq<string>): seq<string> {
    if texts == [] then [] else SplitWhitespace(texts[0]) + WordsOfTexts(texts[1..])
  }

  lemma {:induction false} WordsOfConcat(a: seq<string>, b: seq<string>)
    ensures WordsOfTexts(a + b) == WordsOfTexts(a) + WordsOfTexts(b)
  {
    if a == [] {
      assert a + b == b;
    } else {
      assert (a + b)[1..] == a[1..] + b;
      WordsOfConcat(a[1..], b);
    }
  }

  predicate Overflows(current: string, word: string) {
    current != "" && |current| + 1 + |word| > MAX_EMBED_INPUT_CHARS
  }

  lemma {:induction false} PackStartsText(words: seq<string>, current: string)
    requires words != [] && |words[0]| <= MAX_EMBED_INPUT_CHARS && Overflows(current, words[0])
    ensures Pack(words, current) == [current] + Pack(words[1..], words[0])
  {
  }

  lemma {:induction false} PackGoesOn(words: seq<string>, held: seq<string>)
    requires AreWords(held) && words != [] && |words[0]| <= MAX_EMBED_INPUT_CHARS && !Overflows(Join(held), words[0])
    ensures Pack(words, Join(held)) == Pack(words[1..], Join(held + [words[0]]))
  {
    JoinAppend(held, words[0]);
    assert Pack(words, Join(held)) == [] + Pack(words[1..], Appended(Join(held), words[0]));
  }

  lemma {:induction false} PackNothing(held: seq<string>)
    requires AreWords(held)
    ensures WordsOfTexts(Pack([], Join(held))) == held
  {
    SplitOfJoin(held);
    JoinEmpty(held);
    if held != [] {
      assert [Join(held)][1..] == [];
      assert WordsOfTexts([Join(held)]) == SplitWhitespace(Join(held)) + [];
    }
  }

  /** Packing is exact: the words of the packed texts are the words packed. */
  lemma {:induction false} PackConserves(words: seq<string>, held: seq<string>)
    requires AreWords(words) && AreWords(held) && Within(words)
    ensures WordsOfTexts(Pack(words, Join(held))) == held + words
    decreases |words|
  {
    if words == [] {
      PackNothing(held);
      assert held + words == held;
    } else {
      var word, rest := words[0], words[1..];
      assert words == [word] + rest;
      Regroup(held, [word], rest);
      if Overflows(Join(held), word) {
        PackStartsText(words, Join(held));
        assert Join([word]) == word;
        PackConserves(rest, [word]);
        TextThenTexts(held, Pack(rest, word));
      } else {
        PackGoesOn(words, held);
        PackConserves(rest, held + [word]);
      }
    }
  }

  lemma {:induction false} TextThenTexts(held: seq<string>, texts: seq<string>)
    requires AreWords(held)
    ensures WordsOfTexts([Join(held)] + texts) == held + WordsOfTexts(texts)
  {
    SplitOfJoin(held);
    assert ([Join(held)] + texts)[0] == Join(held) && ([Join(held)] + texts)[1..] == texts;
  }

  lemma {:induction false} JoinEmpty(words: seq<string>)
    requires AreWords(words)
    ensures Join(words) == "" <==> words == []
  {
  }

  lemma {:induction false} JoinAppend(words: seq<string>, word: string)
    requires AreWords(words)
    ensures Join(words + [word]) == Appended(Join(words), word)
  {
    JoinEmpty(words);
    if words == [] {
      assert words + [word] == [word];
    } else if |words| > 1 {
      assert (words + [word])[1..] == words[1..] + [word];
      JoinAppend(words[1..], word);
      JoinEmpty(words[1..]);
    }
  }

  /** The texts of one window hold exactly its words, in order. */
  lemma {:induction false} PackedConserves(words: seq<string>)
    requires AreWords(words) && Within(words)
    ensures WordsOfTexts(Packed(Join(words))) == words
  {
    SplitOfJoin(words);
    if |Join(words)| <= MAX_EMBED_INPUT_CHARS {
      assert WordsOfTexts([Join(words)]) == SplitWhitespace(Join(words)) + [];
    } else {
      PackConserves(words, []);
      assert [] + words == words;
    }
  }

  /** Joined words are apart by one blank each, and by no other whitespace. */
  lemma {:induction false} JoinUsesBlanks(words: seq<string>)
    requires AreWords(words) && words != []
    ensures |Join(words)| == |Flatten(words)| + |words| - 1
    ensures forall i :: 0 <= i < |Join(words)| && IsWhitespace(Join(words)[i]) ==> Join(words)[i] == ' '
  {
    if |words| == 1 {
      assert Flatten(words) == words[0] + Flatten([]);
    } else {
      JoinUsesBlanks(words[1..]);
    }
  }

  /** `texts` are the joined `groups` of `words`, each as long as the bound allows: the next word did not fit. */
  ghost predicate PacksGreedily(texts: seq<string>, groups: seq<seq<string>>, words: seq<string>) {
    && Flatten(groups) == words && |texts| == |groups|
    && (forall i :: 0 <= i < |groups| ==> groups[i] != [] && texts[i] == Join(groups[i]))
    && forall i :: 0 <= i < |groups| - 1 ==> |texts[i]| + 1 + |groups[i + 1][0]| > 1000
  }

  lemma {:induction false} OneMoreGroup(
      texts: seq<string>, groups: seq<seq<string>>, words: seq<string>, held: seq<string>)
    requires held != [] && words != [] && PacksGreedily(texts, groups, words)
    requires Overflows(Join(held), groups[0][0])
    ensures PacksGreedily([Join(held)] + texts, [held] + groups, held + words)
  {
    assert ([held] + groups)[1..] == groups;
  }

  /** `texts` pack `words` greedily, the first group beginning with the held ones. */
  ghost predicate PacksFrom(texts: seq<string>, held: seq<string>, words: seq<string>) {
    exists groups ::
      && PacksGreedily(texts, groups, words)
      && (held != [] ==> groups != [] && held <= groups[0])
  }

  lemma {:induction false} HeldIsLast(held: seq<string>)
    requires AreWords(held)
    ensures PacksFrom(Pack([], Join(held)), held, held)
  {
    JoinEmpty(held);
    var groups := if held == [] then [] else [held];
    assert Flatten([held]) == held + Flatten([]);
    assert PacksGreedily(Pack([], Join(held)), groups, held);
  }

  lemma {:induction false} NextStartsGroup(texts: seq<string>, held: seq<string>, word: string, words: seq<string>)
    requires held != [] && words != [] && Overflows(Join(held), word) && PacksFrom(texts, [word], words)
    ensures PacksFrom([Join(held)] + texts, held, held + words)
  {
    var groups :| PacksGreedily(texts, groups, words) && groups != [] && [word] <= groups[0];
    assert groups[0][0] == word;
    OneMoreGroup(texts, groups, words, held);
    assert ([held] + groups)[0] == held;
  }

  lemma {:induction false} NextJoinsGroup(texts: seq<string>, held: seq<string>, word: string, words: seq<string>)
    requires PacksFrom(texts, held + [word], words)
    ensures PacksFrom(texts, held, words)
  {
    var groups :| PacksGreedily(texts, groups, words) && groups != [] && held + [word] <= groups[0];
    assert held <= held + [word];
  }

  lemma {:induction false} PackIsGreedy(words: seq<string>, held: seq<string>)
    requires AreWords(words) && AreWords(held) && Within(words)
    ensures PacksFrom(Pack(words, Join(held)), held, held + words)
    decreases |words|
  {
    if words == [] {
      HeldIsLast(held);
      assert held + words == held;
    } else {
      var word, rest := words[0], words[1..];
      assert words == [word] + rest;
      Regroup(held, [word], rest);
      if Overflows(Join(held), word) {
        PackStartsText(words, Join(held));
        assert Join([word]) == word;
        PackIsGreedy(rest, [word]);
        NextStartsGroup(Pack(rest, word), held, word, words);
      } else {
        PackGoesOn(words, held);
        PackIsGreedy(rest, held + [word]);
        NextJoinsGroup(Pack(rest, Join(held + [word])), held, word, held + words);
      }
    }
  }

  /** A window is packed into texts that are each as long as taking the words in turn allows. */
  lemma {:induction false} PackedIsGreedy(words: seq<string>)
    requires AreWords(words) && Within(words) && words != []
    ensures exists groups :: PacksGreedily(Packed(Join(words)), groups, words)
  {
    SplitOfJoin(words);
    if |Join(words)| <= MAX_EMBED_INPUT_CHARS {
      assert [words][1..] == [] && Flatten([words]) == words + Flatten([]);
      assert PacksGreedily(Packed(Join(words)), [words], words);
    } else {
      PackIsGreedy(words, []);
      assert [] + words == words;
      var groups :| PacksGreedily(Pack(words, Join([])), groups, [] + words);
      assert Packed(Join(words)) == Pack(words, Join([]));
      assert PacksGreedily(Packed(Join(words)), groups, words);
    }
  }

  // ----- windows -----

  function Min(a: nat, b: nat): nat {
    if a <= b then a else b
  }

  function WindowsFrom(words: seq<string>, start: nat): seq<seq<string>>
    requires start < |words|
    decreases |words| - start
  {
    var end := Min(start + BODY_CHUNK_WORDS, |words|);
    [words[start..end]] + (if end == |words| then [] else WindowsFrom(words, end - BODY_CHUNK_OVERLAP))
  }

  function Windows(words: seq<string>): seq<seq<string>> {
    if words == [] then [] else WindowsFrom(words, 0)
  }

  function PackedWindows(windows: seq<seq<string>>): seq<seq<string>> {
    if windows == [] then [] else [Packed(Join(windows[0]))] + PackedWindows(windows[1..])
  }

  /** The texts of every window, in order. */
  function Chunks(body: string): seq<string> {
    Flatten(PackedWindows(Windows(SplitWhitespace(body))))
  }

  function ChunksFrom(words: seq<string>, start: nat): seq<string>
    requires start < |words|
  {
    Flatten(PackedWindows(WindowsFrom(words, start)))
  }

  lemma {:induction false} ChunksFromStep(words: seq<string>, start: nat)
    requires start < |words|
    ensures ChunksFrom(words, start) ==
            var end := Min(start + BODY_CHUNK_WORDS, |words|);
            Packed(Join(words[start..end])) +
              (if end == |words| then [] else ChunksFrom(words, end - BODY_CHUNK_OVERLAP))
  {
    var end := Min(start + BODY_CHUNK_WORDS, |words|);
    var windows := WindowsFrom(words, start);
    var rest := if end == |words| then [] else WindowsFrom(words, end - BODY_CHUNK_OVERLAP);
    assert windows == [words[start..end]] + rest;
    assert windows[0] == words[start..end] && windows[1..] == rest;
    assert PackedWindows(windows) == [Packed(Join(windows[0]))] + PackedWindows(rest);
    assert PackedWindows(windows)[1..] == PackedWindows(rest);
    assert Flatten(PackedWindows(windows)) == Packed(Join(windows[0])) + Flatten(PackedWindows(rest));
  }

  /** The loop of `body_chunks`. */
  method BodyChunks(body: string) returns (chunks: seq<string>)
    ensures chunks == Chunks(body)
  {
    var words := SplitWhitespace(body);
    if words == [] {
      return [];
    }
    chunks := [];
    var start := 0;
    ghost var goal := ChunksFrom(words, 0);
    while true
      invariant start < |words|
      invariant chunks + ChunksFrom(words, start) == goal
      decreases |words| - start
    {
      var end := Min(start + BODY_CHUNK_WORDS, |words|);
      ChunksFromStep(words, start);
      var texts := SplitLongText(Join(words[start..end]));
      ghost var rest := if end == |words| then [] else ChunksFrom(words, end - BODY_CHUNK_OVERLAP);
      Regroup(chunks, texts, rest);
      chunks := chunks + texts;
      if end == |words| {
        return;
      }
      start := end - BODY_CHUNK_OVERLAP;
    }
  }

  /** 1 + ceil((n - 600) / 525) windows for a body of n > 600 words. */
  function WindowCount(n: nat): nat {
    if n == 0 then 0
    else if n <= BODY_CHUNK_WORDS then 1
    else 1 + (n - BODY_CHUNK_WORDS + 524) / 525
  }

  lemma {:induction false} WindowsFromCount(words: seq<string>, start: nat)
    requires start < |words|
    ensures |WindowsFrom(words, start)| == WindowCount(|words| - start)
    decreases |words| - start
  {
    var end := Min(start + BODY_CHUNK_WORDS, |words|);
    if end != |words| {
      WindowsFromCount(words, end - BODY_CHUNK_OVERLAP);
    }
  }

  predicate OverlapAt(windows: seq<seq<string>>, i: nat)
    requires i + 1 < |windows|
  {
    && |windows[i]| == BODY_CHUNK_WORDS
    && BODY_CHUNK_OVERLAP < |windows[i + 1]|
    && windows[i + 1][..BODY_CHUNK_OVERLAP] == windows[i][BODY_CHUNK_WORDS - BODY_CHUNK_OVERLAP..]
  }

  ghost predicate Overlaps(windows: seq<seq<string>>) {
    forall i :: 0 <= i < |windows| - 1 ==> OverlapAt(windows, i)
  }

  /** What is left of windows after the first when their overlaps are dropped. */
  function Fresh(windows: seq<seq<string>>): seq<string>
    requires forall i :: 0 <= i < |windows| ==> BODY_CHUNK_OVERLAP <= |windows[i]|
  {
    if windows == [] then [] else windows[0][BODY_CHUNK_OVERLAP..] + Fresh(windows[1..])
  }

  lemma {:induction false} WindowsFromOverlap(words: seq<string>, start: nat)
    requires start < |words|
    ensures Overlaps(WindowsFrom(words, start))
    decreases |words| - start
  {
    var end := Min(start + BODY_CHUNK_WORDS, |words|);
    if end != |words| {
      var next := end - BODY_CHUNK_OVERLAP;
      var windows, rest := WindowsFrom(words, start), WindowsFrom(words, next);
      WindowsFromOverlap(words, next);
      assert windows == [words[start..end]] + rest;
      forall i | 0 <= i < |windows| - 1
        ensures OverlapAt(windows, i)
      {
        if i == 0 {
          assert rest[0] == words[next..Min(next + BODY_CHUNK_WORDS, |words|)];
          assert rest[0][..BODY_CHUNK_OVERLAP] == words[next..end];
          assert words[start..end][BODY_CHUNK_WORDS - BODY_CHUNK_OVERLAP..] == words[next..end];
        } else {
          assert OverlapAt(rest, i - 1);
        }
      }
    }
  }

  lemma {:induction false} WindowsFromCover(words: seq<string>, start: nat)
    requires start < |words|
    ensures forall i :: 0 < i < |WindowsFrom(words, start)| ==> BODY_CHUNK_OVERLAP <= |WindowsFrom(words, start)[i]|
    ensures WindowsFrom(words, start)[0] + Fresh(WindowsFrom(words, start)[1..]) == words[start..]
    decreases |words| - start
  {
    var end := Min(start + BODY_CHUNK_WORDS, |words|);
    if end != |words| {
      var next := end - BODY_CHUNK_OVERLAP;
      var rest := WindowsFrom(words, next);
      WindowsFromCover(words, next);
      assert WindowsFrom(words, start)[1..] == rest;
      assert rest[0] == words[next..Min(next + BODY_CHUNK_WORDS, |words|)];
      CoverStep(words, start, end, rest);
    }
  }

  lemma {:induction false} CoverStep(words: seq<string>, start: nat, end: nat, rest: seq<seq<string>>)
    requires start + BODY_CHUNK_OVERLAP <= end <= |words| && rest != []
    requires forall i :: 0 <= i < |rest| ==> BODY_CHUNK_OVERLAP <= |rest[i]|
    requires rest[0] + Fresh(rest[1..]) == words[end - BODY_CHUNK_OVERLAP..]
    ensures words[start..end] + Fresh(rest) == words[start..]
  {
    var tail := rest[0] + Fresh(rest[1..]);
    assert tail[BODY_CHUNK_OVERLAP..] == rest[0][BODY_CHUNK_OVERLAP..] + Fresh(rest[1..]);
    assert words[end - BODY_CHUNK_OVERLAP..][BODY_CHUNK_OVERLAP..] == words[end..];
    assert words[start..] == words[start..end] + words[end..];
  }

  /**
   The windows number as stated, neighbours share exactly the overlap, and
   dropping the overlaps gives back the words in order.
   */
  lemma {:induction false} WindowsConserve(words: seq<string>)
    ensures |Windows(words)| == WindowCount(|words|)
    ensures Overlaps(Windows(words))
    ensures words != [] ==>
              && Windows(words) != []
              && (forall i :: 0 < i < |Windows(words)| ==> BODY_CHUNK_OVERLAP <= |Windows(words)[i]|)
              && Windows(words)[0] + Fresh(Windows(words)[1..]) == words
  {
    if words != [] {
      WindowsFromCount(words, 0);
      WindowsFromOverlap(words, 0);
      WindowsFromCover(words, 0);
      assert words[0..] == words;
    }
  }

  lemma {:induction false} WindowsHoldWords(words: seq<string>, start: nat)
    requires start < |words| && AreWords(words) && Within(words)
    ensures forall i :: 0 <= i < |WindowsFrom(words, start)| ==>
              AreWords(WindowsFrom(words, start)[i]) && Within(WindowsFrom(words, start)[i])
    decreases |words| - start
  {
    var end := Min(start + BODY_CHUNK_WORDS, |words|);
    if end != |words| {
      WindowsHoldWords(words, end - BODY_CHUNK_OVERLAP);
    }
  }

  lemma {:induction false} PackedWindowsAt(windows: seq<seq<string>>, i: nat)
    requires i < |windows|
    ensures |PackedWindows(windows)| == |windows|
    ensures PackedWindows(windows)[i] == Packed(Join(windows[i]))
    decreases |windows|
  {
    if |windows| > 1 {
      PackedWindowsAt(windows[1..], if i == 0 then 0 else i - 1);
    }
  }

  /**
   End to end: whatever the text, its chunks come in groups, one group a
   window; each group holds exactly the words of its window, the windows
   conserve the body's words, and those hold exactly the text's characters
   other than whitespace.
   */
  lemma {:induction false} ChunkingConserves(text: string, i: nat)
    requires i < |Windows(SplitWhitespace(SplitOversizedWords(text)))|
    ensures
      var words := SplitWhitespace(SplitOversizedWords(text));
      var groups := PackedWindows(Windows(words));
      && Flatten(words) == Solid(text)
      && Chunks(SplitOversizedWords(text)) == Flatten(groups)
      && |groups| == |Windows(words)| == WindowCount(|words|)
      && WordsOfTexts(groups[i]) == Windows(words)[i]
  {
    var words := SplitWhitespace(SplitOversizedWords(text));
    SplitOversizedConserves(text);
    WordsAreSolid(SplitOversizedWords(text));
    WindowsConserve(words);
    WindowsHoldWords(words, 0);
    PackedWindowsAt(Windows(words), i);
    PackedConserves(Windows(words)[i]);
  }

  lemma {:induction false} FlattenWithin(groups: seq<seq<string>>)
    requires forall i :: 0 <= i < |groups| ==> Within(groups[i])
    ensures Within(Flatten(groups))
  {
    if groups != [] {
      FlattenWithin(groups[1..]);
    }
  }

  /** No chunk exceeds the bound, for any body, even one with words that do. */
  lemma {:induction false} ChunksWithinBound(body: string)
    ensures Within(Chunks(body))
  {
    var windows := Windows(SplitWhitespace(body));
    forall i | 0 <= i < |PackedWindows(windows)|
      ensures Within(PackedWindows(windows)[i])
    {
      PackedWindowsLength(windows);
      PackedWindowsAt(windows, i);
      PackWithin(SplitWhitespace(Join(windows[i])), "");
    }
    FlattenWithin(PackedWindows(windows));
  }

  lemma {:induction false} PackedWindowsLength(windows: seq<seq<string>>)
    ensures |PackedWindows(windows)| == |windows|
  {
    if windows != [] {
      PackedWindowsLength(windows[1..]);
    }
  }
}
