/**
 The embedding store and the two ways of filling it: an incremental run that
 embeds only what the store does not hold, and a rebuild that embeds everything
 first and replaces the account's rows at the end.

 A chunk id (a hash of account, message, content, kind and ordinal) is modelled
 as those fields, and a text hash as the text.
 */
module Embeddings {
  import opened Basics

  type Vector = seq<int>

  datatype ChunkId = ChunkId(account: string, messageId: string, contentId: string, kind: string, ordinal: nat)

  datatype Chunk = Chunk(id: ChunkId, text: string)

  datatype Message = Message(account: string, messageId: string, contentId: string)

  /** `chunks` maps a chunk row to its text, `vectors` to its embedding. */
  datatype Store = Store(chunks: map<ChunkId, string>, vectors: map<ChunkId, Vector>)

  datatype Row = Row(chunk: Chunk, vector: Vector)

  /** Reading and chunking a message (which may fail), and the embedding provider (likewise). */
  datatype Source = Source(chunksOf: Message -> Option<seq<Chunk>>, embed: seq<string> -> Option<seq<Vector>>)

  /**
   Chunk ids are hashed from their own message, ordinals tell them apart, and
   every message has a message-level chunk.
   */
  ghost predicate WellChunked(source: Source) {
    forall m :: source.chunksOf(m).Some? ==>
      && source.chunksOf(m).value != []
      && DistinctIds(source.chunksOf(m).value)
      && forall c :: c in source.chunksOf(m).value ==> c.id.account == m.account && c.id.messageId == m.messageId
  }

  predicate DistinctIds(chunks: seq<Chunk>) {
    forall i, j :: 0 <= i < j < |chunks| ==> chunks[i].id != chunks[j].id
  }

  predicate DistinctMessages(messages: seq<Message>) {
    forall i, j :: 0 <= i < j < |messages| ==> messages[i].messageId != messages[j].messageId
  }

  ghost predicate Valid(s: Store) {
    s.vectors.Keys <= s.chunks.Keys
  }

  predicate HasEmbedding(s: Store, c: Chunk) {
    c.id in s.chunks && c.id in s.vectors && s.chunks[c.id] == c.text
  }

  function Pending(s: Store, chunks: seq<Chunk>): seq<Chunk> {
    if chunks == [] then []
    else (if HasEmbedding(s, chunks[0]) then [] else [chunks[0]]) + Pending(s, chunks[1..])
  }

  /** What the provider is asked: the chunks' own texts, in order. */
  function Texts(chunks: seq<Chunk>): (texts: seq<string>)
    ensures |texts| == |chunks| && forall i :: 0 <= i < |chunks| ==> texts[i] == chunks[i].text
  {
    seq(|chunks|, i requires 0 <= i < |chunks| => chunks[i].text)
  }

  function Zip(chunks: seq<Chunk>, vectors: seq<Vector>): (rows: seq<Row>)
    requires |chunks| == |vectors|
    ensures |rows| == |chunks| && forall i :: 0 <= i < |rows| ==> rows[i] == Row(chunks[i], vectors[i])
  {
    seq(|chunks|, i requires 0 <= i < |chunks| => Row(chunks[i], vectors[i]))
  }

  /** Vectors of one common, nonzero length. */
  predicate SameDimensions(rows: seq<Row>) {
    rows != [] ==> |rows[0].vector| != 0 && forall i :: 0 <= i < |rows| ==> |rows[i].vector| == |rows[0].vector|
  }

  function StoreRows(s: Store, rows: seq<Row>): Store
    decreases |rows|
  {
    if rows == [] then s
    else
      var id := rows[0].chunk.id;
      StoreRows(Store(s.chunks[id := rows[0].chunk.text], s.vectors[id := rows[0].vector]), rows[1..])
  }

  predicate HasRow(rows: seq<Row>, id: ChunkId) {
    exists i :: 0 <= i < |rows| && rows[i].chunk.id == id
  }

  predicate DistinctRows(rows: seq<Row>) {
    forall i, j :: 0 <= i < j < |rows| ==> rows[i].chunk.id != rows[j].chunk.id
  }

  /** Storing rows sets exactly the rows named, each with its own text and vector. */
  lemma {:induction false} StoreRowsAt(s: Store, rows: seq<Row>, id: ChunkId)
    requires DistinctRows(rows)
    ensures
      var s' := StoreRows(s, rows);
      && (forall i :: 0 <= i < |rows| && rows[i].chunk.id == id ==>
            && id in s'.chunks && s'.chunks[id] == rows[i].chunk.text
            && id in s'.vectors && s'.vectors[id] == rows[i].vector)
      && (!HasRow(rows, id) ==> SameRow(s, s', id))
      && (Valid(s) ==> Valid(s'))
    decreases |rows|
  {
    if rows != [] {
      var s1 := Store(s.chunks[rows[0].chunk.id := rows[0].chunk.text], s.vectors[rows[0].chunk.id := rows[0].vector]);
      StoreRowsAt(s1, rows[1..], id);
      if rows[0].chunk.id == id {
        assert !HasRow(rows[1..], id);
      }
      if HasRow(rows[1..], id) {
        var i :| 0 <= i < |rows[1..]| && rows[1..][i].chunk.id == id;
        assert rows[i + 1].chunk.id == id;
      }
      forall i | 0 <= i < |rows| && rows[i].chunk.id == id
        ensures
          var s' := StoreRows(s, rows);
          && id in s'.chunks && s'.chunks[id] == rows[i].chunk.text
          && id in s'.vectors && s'.vectors[id] == rows[i].vector
      {
        if i > 0 {
          assert rows[1..][i - 1] == rows[i];
        }
      }
    }
  }

  predicate SameRow(s: Store, s': Store, id: ChunkId) {
    && (id in s'.chunks <==> id in s.chunks) && (id in s.chunks ==> s'.chunks[id] == s.chunks[id])
    && (id in s'.vectors <==> id in s.vectors) && (id in s.vectors ==> s'.vectors[id] == s.vectors[id])
  }

  // ----- the incremental run -----

  datatype Progress = Progress(store: Store, embedded: nat, errors: nat)

  /** One message: nothing pending asks the provider nothing. */
  function IndexMessage(p: Progress, m: Message, source: Source): Result<Progress> {
    match source.chunksOf(m)
    case None => Ok(p.(errors := p.errors + 1))
    case Some(chunks) =>
      var pending := Pending(p.store, chunks);
      if pending == [] then Ok(p)
      else
        match source.embed(Texts(pending))
        case None => Err
        case Some(vectors) =>
          if |vectors| != |pending| || !SameDimensions(Zip(pending, vectors)) then Err
          else Ok(p.(store := StoreRows(p.store, Zip(pending, vectors)), embedded := p.embedded + |pending|))
  }

  function Incremental(p: Progress, messages: seq<Message>, source: Source): Result<Progress>
    decreases |messages|
  {
    if messages == [] then Ok(p)
    else
      match IndexMessage(p, messages[0], source)
      case Err => Err
      case Ok(p') => Incremental(p', messages[1..], source)
  }

  lemma {:induction false} PendingExact(s: Store, chunks: seq<Chunk>, c: Chunk)
    ensures c in Pending(s, chunks) <==> c in chunks && !HasEmbedding(s, c)
    ensures |Pending(s, chunks)| <= |chunks|
  {
    if chunks != [] {
      PendingExact(s, chunks[1..], c);
      assert chunks == [chunks[0]] + chunks[1..];
    }
  }

  lemma {:induction false} PendingDistinct(s: Store, chunks: seq<Chunk>)
    requires DistinctIds(chunks)
    ensures DistinctIds(Pending(s, chunks))
  {
    if chunks != [] {
      PendingDistinct(s, chunks[1..]);
      forall c | c in Pending(s, chunks[1..])
        ensures c.id != chunks[0].id
      {
        PendingExact(s, chunks[1..], c);
        var i :| 0 <= i < |chunks[1..]| && chunks[1..][i] == c;
        assert chunks[i + 1] == c;
      }
    }
  }

  lemma {:induction false} NothingPending(s: Store, chunks: seq<Chunk>)
    requires forall c :: c in chunks ==> HasEmbedding(s, c)
    ensures Pending(s, chunks) == []
  {
    if chunks != [] {
      assert chunks[0] in chunks;
      NothingPending(s, chunks[1..]);
    }
  }

  /** Every chunk of the message is in the store, with its current text and a vector. */
  ghost predicate Embedded(s: Store, m: Message, source: Source) {
    source.chunksOf(m).Some? ==> forall c :: c in source.chunksOf(m).value ==> HasEmbedding(s, c)
  }

  /** Indexing one message completes it and touches no other message's rows. */
  lemma {:induction false} IndexMessageEmbeds(p: Progress, m: Message, source: Source)
    requires WellChunked(source) && IndexMessage(p, m, source).Ok?
    ensures Embedded(IndexMessage(p, m, source).value.store, m, source)
    ensures source.chunksOf(m).Some? ==>
              var s' := IndexMessage(p, m, source).value.store;
              forall c :: c in source.chunksOf(m).value ==>
                c.id in s'.chunks && s'.chunks[c.id] == c.text && c.id in s'.vectors
    ensures forall id: ChunkId :: id.messageId != m.messageId || id.account != m.account ==>
              SameRow(p.store, IndexMessage(p, m, source).value.store, id)
    ensures Valid(p.store) ==> Valid(IndexMessage(p, m, source).value.store)
  {
    if source.chunksOf(m).Some? {
      var chunks := source.chunksOf(m).value;
      var pending := Pending(p.store, chunks);
      PendingDistinct(p.store, chunks);
      var s' := IndexMessage(p, m, source).value.store;
      if pending == [] {
        forall c | c in chunks
          ensures HasEmbedding(s', c)
        {
          PendingExact(p.store, chunks, c);
        }
      } else {
        var rows := Zip(pending, source.embed(Texts(pending)).value);
        forall c | c in chunks
          ensures HasEmbedding(s', c)
        {
          PendingExact(p.store, chunks, c);
          StoreRowsAt(p.store, rows, c.id);
          PendingOrKept(p.store, chunks, rows, c);
        }
        forall id: ChunkId | id.messageId != m.messageId || id.account != m.account
          ensures SameRow(p.store, s', id)
        {
          StoreRowsAt(p.store, rows, id);
          forall i | 0 <= i < |rows|
            ensures rows[i].chunk.id != id
          {
            assert rows[i].chunk == pending[i] && pending[i] in pending;
            PendingExact(p.store, chunks, pending[i]);
          }
        }
        StoreRowsAt(p.store, rows, pending[0].id);
      }
    }
  }

  /** A chunk is either among the rows to store or untouched by them. */
  lemma {:induction false} PendingOrKept(s: Store, chunks: seq<Chunk>, rows: seq<Row>, c: Chunk)
    requires DistinctIds(chunks) && c in chunks && |rows| == |Pending(s, chunks)|
    requires forall i :: 0 <= i < |rows| ==> rows[i].chunk == Pending(s, chunks)[i]
    ensures if HasEmbedding(s, c) then !HasRow(rows, c.id)
            else exists i :: 0 <= i < |rows| && rows[i].chunk == c
  {
    PendingExact(s, chunks, c);
    if HasEmbedding(s, c) {
      forall i | 0 <= i < |rows|
        ensures rows[i].chunk.id != c.id
      {
        var d := Pending(s, chunks)[i];
        assert d in Pending(s, chunks);
        PendingExact(s, chunks, d);
        var x :| 0 <= x < |chunks| && chunks[x] == c;
        var y :| 0 <= y < |chunks| && chunks[y] == d;
        assert d != c;
      }
    } else {
      var i :| 0 <= i < |Pending(s, chunks)| && Pending(s, chunks)[i] == c;
      assert rows[i].chunk == c;
    }
  }

  function Unembedded(s: Store, chunks: seq<Chunk>): set<Chunk> {
    set c | c in chunks && !HasEmbedding(s, c)
  }

  lemma {:induction false} PendingCount(s: Store, chunks: seq<Chunk>)
    requires DistinctIds(chunks)
    ensures |Pending(s, chunks)| == |Unembedded(s, chunks)|
  {
    if chunks != [] {
      PendingCount(s, chunks[1..]);
      assert chunks == [chunks[0]] + chunks[1..];
      assert chunks[0] !in chunks[1..];
      if HasEmbedding(s, chunks[0]) {
        assert Unembedded(s, chunks) == Unembedded(s, chunks[1..]);
      } else {
        assert Unembedded(s, chunks) == Unembedded(s, chunks[1..]) + {chunks[0]};
      }
    }
  }

  predicate AnsweredAt(source: Source, texts: seq<string>, k: nat, text: string, vector: Vector) {
    && source.embed(texts).Some? && k < |texts| && k < |source.embed(texts).value|
    && texts[k] == text && source.embed(texts).value[k] == vector
  }

  /** The provider gave `vector` for `text`. */
  ghost predicate Answered(source: Source, text: string, vector: Vector) {
    exists texts, k: nat :: AnsweredAt(source, texts, k, text, vector)
  }

  /** The chunk's own vector, and of the nonzero length `n` that all stored with it have. */
  ghost predicate HasVector(s: Store, c: Chunk, source: Source, n: nat) {
    c.id in s.vectors && Answered(source, c.text, s.vectors[c.id]) && |s.vectors[c.id]| == n > 0
  }

  ghost predicate AllHaveVectors(s: Store, chunks: set<Chunk>, source: Source, n: nat) {
    forall c :: c in chunks ==> HasVector(s, c, source, n)
  }

  /**
   A message's chunks that the store did not have end with the vectors the
   provider gave for their texts, all of one length, and are what is counted;
   a message that cannot be read is counted as an error.
   */
  lemma {:induction false} IndexMessageStores(p: Progress, m: Message, source: Source)
    requires WellChunked(source) && IndexMessage(p, m, source).Ok?
    ensures
      var p' := IndexMessage(p, m, source).value;
      match source.chunksOf(m)
      case None => p' == p.(errors := p.errors + 1)
      case Some(chunks) =>
        && p'.errors == p.errors && p'.embedded == p.embedded + |Unembedded(p.store, chunks)|
        && exists n :: AllHaveVectors(p'.store, Unembedded(p.store, chunks), source, n)
  {
    if source.chunksOf(m).Some? {
      var chunks := source.chunksOf(m).value;
      var pending, s' := Pending(p.store, chunks), IndexMessage(p, m, source).value.store;
      PendingCount(p.store, chunks);
      PendingDistinct(p.store, chunks);
      if pending == [] {
        assert Unembedded(p.store, chunks) == {};
        assert AllHaveVectors(s', Unembedded(p.store, chunks), source, 0);
      } else {
        var rows := Zip(pending, source.embed(Texts(pending)).value);
        var n := |rows[0].vector|;
        forall c | c in Unembedded(p.store, chunks)
          ensures HasVector(s', c, source, n)
        {
          PendingExact(p.store, chunks, c);
          var i :| 0 <= i < |pending| && pending[i] == c;
          StoreRowsAt(p.store, rows, c.id);
          assert rows[i].chunk == c && s'.vectors[c.id] == rows[i].vector;
          assert AnsweredAt(source, Texts(pending), i, c.text, rows[i].vector);
        }
        assert AllHaveVectors(s', Unembedded(p.store, chunks), source, n);
      }
    }
  }

  /** The provider answers with as many vectors as texts, all of one nonzero length. */
  predicate AnswersWell(source: Source, texts: seq<string>) {
    && source.embed(texts).Some? && |source.embed(texts).value| == |texts|
    && forall i :: 0 <= i < |texts| ==> |source.embed(texts).value[i]| == |source.embed(texts).value[0]| > 0
  }

  /** Indexing a message fails exactly when the provider is asked and does not answer so. */
  lemma {:induction false} IndexMessageFailsIff(p: Progress, m: Message, source: Source)
    ensures IndexMessage(p, m, source).Err? <==>
              && source.chunksOf(m).Some?
              && var pending := Pending(p.store, source.chunksOf(m).value);
                 pending != [] && !AnswersWell(source, Texts(pending))
  {
    if source.chunksOf(m).Some? {
      var pending := Pending(p.store, source.chunksOf(m).value);
      var answer := source.embed(Texts(pending));
      if pending != [] && answer.Some? && |answer.value| == |pending| {
        var rows := Zip(pending, answer.value);
        assert forall i :: 0 <= i < |rows| ==> rows[i].vector == answer.value[i];
      }
    }
  }

  lemma {:induction false} EmbeddedStays(p: Progress, m: Message, other: Message, source: Source)
    requires WellChunked(source) && IndexMessage(p, m, source).Ok? && other.messageId != m.messageId
    requires Embedded(p.store, other, source)
    ensures Embedded(IndexMessage(p, m, source).value.store, other, source)
  {
    IndexMessageEmbeds(p, m, source);
    if source.chunksOf(other).Some? {
      forall c | c in source.chunksOf(other).value
        ensures HasEmbedding(IndexMessage(p, m, source).value.store, c)
      {
        assert HasEmbedding(p.store, c);
        assert SameRow(p.store, IndexMessage(p, m, source).value.store, c.id);
      }
    }
  }

  lemma {:induction false} IncrementalKeeps(p: Progress, messages: seq<Message>, other: Message, source: Source)
    requires WellChunked(source) && Incremental(p, messages, source).Ok? && Embedded(p.store, other, source)
    requires forall i :: 0 <= i < |messages| ==> messages[i].messageId != other.messageId
    ensures Embedded(Incremental(p, messages, source).value.store, other, source)
    decreases |messages|
  {
    if messages != [] {
      EmbeddedStays(p, messages[0], other, source);
      IncrementalKeeps(IndexMessage(p, messages[0], source).value, messages[1..], other, source);
    }
  }

  lemma {:induction false} IncrementalEmbeds(p: Progress, messages: seq<Message>, source: Source, i: nat)
    requires WellChunked(source) && DistinctMessages(messages) && Incremental(p, messages, source).Ok? && i < |messages|
    ensures Embedded(Incremental(p, messages, source).value.store, messages[i], source)
    decreases |messages|
  {
    var p' := IndexMessage(p, messages[0], source).value;
    if i == 0 {
      IndexMessageEmbeds(p, messages[0], source);
      IncrementalKeeps(p', messages[1..], messages[0], source);
    } else {
      IncrementalEmbeds(p', messages[1..], source, i - 1);
    }
  }

  lemma {:induction false} EmbeddedRunIsIdle(p: Progress, messages: seq<Message>, source: Source)
    requires forall i :: 0 <= i < |messages| ==> Embedded(p.store, messages[i], source)
    ensures Incremental(p, messages, source).Ok?
    ensures Incremental(p, messages, source).value.store == p.store
    ensures Incremental(p, messages, source).value.embedded == p.embedded
    decreases |messages|
  {
    if messages != [] {
      assert Embedded(p.store, messages[0], source);
      if source.chunksOf(messages[0]).Some? {
        NothingPending(p.store, source.chunksOf(messages[0]).value);
      }
      var p' := IndexMessage(p, messages[0], source).value;
      forall i | 0 <= i < |messages[1..]|
        ensures Embedded(p'.store, messages[1..][i], source)
      {
        assert Embedded(p.store, messages[i + 1], source);
      }
      EmbeddedRunIsIdle(p', messages[1..], source);
    }
  }

  lemma {:induction false} IncrementalThenOne(p: Progress, messages: seq<Message>, m: Message, source: Source)
    requires Incremental(p, messages, source).Ok?
    ensures Incremental(p, messages + [m], source) == IndexMessage(Incremental(p, messages, source).value, m, source)
    decreases |messages|
  {
    if messages == [] {
      assert [m][1..] == [];
    } else {
      assert (messages + [m])[0] == messages[0] && (messages + [m])[1..] == messages[1..] + [m];
      IncrementalThenOne(IndexMessage(p, messages[0], source).value, messages[1..], m, source);
    }
  }

  /** The store after the first k messages, the next of which fails. */
  predicate FailsAfter(store: Store, store': Store, messages: seq<Message>, k: nat, source: Source)
    requires k < |messages|
  {
    var run := Incremental(Progress(store, 0, 0), messages[..k], source);
    run.Ok? && store' == run.value.store && IndexMessage(run.value, messages[k], source).Err?
  }

  /** What an interrupted incremental run leaves: every message before the failing one is indexed, and stays so. */
  ghost predicate Interrupted(store: Store, store': Store, messages: seq<Message>, source: Source) {
    exists k :: 0 <= k < |messages| && FailsAfter(store, store', messages, k, source)
  }

  /** Repeating a run that succeeded embeds nothing, asks the provider for nothing and changes nothing. */
  lemma {:induction false} SecondRunIsIdle(store: Store, messages: seq<Message>, source: Source)
    requires WellChunked(source) && DistinctMessages(messages)
    requires Incremental(Progress(store, 0, 0), messages, source).Ok?
    ensures
      var after := Incremental(Progress(store, 0, 0), messages, source).value.store;
      var again := Incremental(Progress(after, 0, 0), messages, source);
      again.Ok? && again.value.store == after && again.value.embedded == 0
  {
    var after := Incremental(Progress(store, 0, 0), messages, source).value.store;
    forall i | 0 <= i < |messages|
      ensures Embedded(after, messages[i], source)
    {
      IncrementalEmbeds(Progress(store, 0, 0), messages, source, i);
    }
    EmbeddedRunIsIdle(Progress(after, 0, 0), messages, source);
  }

  // ----- the rebuild -----

  /** What a rebuild collects before it writes anything. */
  datatype Staged = Staged(rows: seq<Row>, errors: nat)

  function StageMessage(staged: Staged, m: Message, source: Source): Result<Staged> {
    match source.chunksOf(m)
    case None => Ok(staged.(errors := staged.errors + 1))
    case Some(chunks) =>
      if chunks == [] then Ok(staged)
      else
        match source.embed(Texts(chunks))
        case None => Err
        case Some(vectors) =>
          if |vectors| != |chunks| then Err else Ok(staged.(rows := staged.rows + Zip(chunks, vectors)))
  }

  function Stage(messages: seq<Message>, source: Source): Result<Staged> {
    if messages == [] then Ok(Staged([], 0))
    else
      match Stage(messages[..|messages| - 1], source)
      case Err => Err
      case Ok(staged) => StageMessage(staged, messages[|messages| - 1], source)
  }

  /** Deleting a chunk row cascades to its vector. */
  function RetainAccountChunks(s: Store, account: string, retained: seq<Row>): Store {
    Store(
      map id | id in s.chunks && (id.account != account || HasRow(retained, id)) :: s.chunks[id],
      map id | id in s.vectors && (id.account != account || HasRow(retained, id)) :: s.vectors[id])
  }

  /** One transaction: store the rows, then drop the account's chunks that are not among them. */
  function ReplaceAccount(s: Store, account: string, rows: seq<Row>): Result<Store> {
    if !SameDimensions(rows) then Err else Ok(RetainAccountChunks(StoreRows(s, rows), account, rows))
  }

  /** An unlimited rebuild without errors replaces the account; any other only adds what it staged. */
  function Rebuild(s: Store, account: string, messages: seq<Message>, limited: bool, source: Source): Result<Store> {
    match Stage(messages, source)
    case Err => Err
    case Ok(staged) =>
      if !limited && staged.errors == 0 then ReplaceAccount(s, account, staged.rows)
      else if staged.rows == [] then Ok(s)
      else if !SameDimensions(staged.rows) then Err
      else Ok(StoreRows(s, staged.rows))
  }

  predicate Belongs(m: Message, c: Chunk, source: Source) {
    source.chunksOf(m).Some? && c in source.chunksOf(m).value
  }

  /** A chunk of one of the messages. */
  ghost predicate IsCurrent(messages: seq<Message>, source: Source, c: Chunk) {
    exists i :: 0 <= i < |messages| && Belongs(messages[i], c, source)
  }

  lemma {:induction false} CurrentStep(messages: seq<Message>, source: Source, c: Chunk)
    requires messages != []
    ensures IsCurrent(messages, source, c) <==>
              IsCurrent(messages[..|messages| - 1], source, c) || Belongs(messages[|messages| - 1], c, source)
  {
    var n := |messages| - 1;
    if IsCurrent(messages[..n], source, c) {
      var i :| 0 <= i < n && Belongs(messages[..n][i], c, source);
      assert Belongs(messages[i], c, source);
    }
    if IsCurrent(messages, source, c) {
      var i :| 0 <= i < |messages| && Belongs(messages[i], c, source);
      if i < n {
        assert Belongs(messages[..n][i], c, source);
      }
    }
  }

  predicate HasChunk(rows: seq<Row>, c: Chunk) {
    exists i :: 0 <= i < |rows| && rows[i].chunk == c
  }

  /** The staged rows are the current chunks, each once, and messages that cannot be read count as errors. */
  lemma {:induction false} StageExact(messages: seq<Message>, source: Source, c: Chunk)
    requires Stage(messages, source).Ok?
    ensures HasChunk(Stage(messages, source).value.rows, c) <==> IsCurrent(messages, source, c)
    ensures Stage(messages, source).value.errors == 0 <==>
              forall i :: 0 <= i < |messages| ==> source.chunksOf(messages[i]).Some?
  {
    if messages != [] {
      var n := |messages| - 1;
      var staged := Stage(messages[..n], source).value;
      StageExact(messages[..n], source, c);
      CurrentStep(messages, source, c);
      assert forall i :: 0 <= i < n ==> messages[..n][i] == messages[i];
      StageMessageExact(staged, messages[n], source, c);
    }
  }

  lemma {:induction false} StageMessageExact(staged: Staged, m: Message, source: Source, c: Chunk)
    requires StageMessage(staged, m, source).Ok?
    ensures HasChunk(StageMessage(staged, m, source).value.rows, c) <==>
              HasChunk(staged.rows, c) || Belongs(m, c, source)
    ensures StageMessage(staged, m, source).value.errors == staged.errors + (if source.chunksOf(m).None? then 1 else 0)
  {
    if source.chunksOf(m).Some? && source.chunksOf(m).value != [] {
      var chunks := source.chunksOf(m).value;
      var rows := Zip(chunks, source.embed(Texts(chunks)).value);
      if HasChunk(staged.rows, c) {
        var i :| 0 <= i < |staged.rows| && staged.rows[i].chunk == c;
        assert (staged.rows + rows)[i].chunk == c;
      }
      if c in chunks {
        var i :| 0 <= i < |chunks| && chunks[i] == c;
        assert (staged.rows + rows)[|staged.rows| + i].chunk == c;
      }
      if HasChunk(staged.rows + rows, c) {
        var i :| 0 <= i < |staged.rows + rows| && (staged.rows + rows)[i].chunk == c;
        if i < |staged.rows| {
          assert staged.rows[i].chunk == c;
        } else {
          assert chunks[i - |staged.rows|] == c;
        }
      }
    }
  }

  lemma {:induction false} StageDistinct(messages: seq<Message>, source: Source)
    requires WellChunked(source) && DistinctMessages(messages) && Stage(messages, source).Ok?
    ensures DistinctRows(Stage(messages, source).value.rows)
  {
    if messages != [] {
      var n := |messages| - 1;
      var m, staged := messages[n], Stage(messages[..n], source).value;
      StageDistinct(messages[..n], source);
      if source.chunksOf(m).Some? && source.chunksOf(m).value != [] {
        var chunks := source.chunksOf(m).value;
        var rows := Zip(chunks, source.embed(Texts(chunks)).value);
        forall i, j | 0 <= i < |staged.rows| && 0 <= j < |rows|
          ensures staged.rows[i].chunk.id != rows[j].chunk.id
        {
          var c := staged.rows[i].chunk;
          assert HasChunk(staged.rows, c);
          StageExact(messages[..n], source, c);
          var k :| 0 <= k < n && Belongs(messages[..n][k], c, source);
          assert c.id.messageId == messages[k].messageId;
          assert chunks[j] in chunks;
        }
        forall i, j | 0 <= i < j < |staged.rows + rows|
          ensures (staged.rows + rows)[i].chunk.id != (staged.rows + rows)[j].chunk.id
        {
          if i >= |staged.rows| {
            assert chunks[i - |staged.rows|].id != chunks[j - |staged.rows|].id;
          }
        }
      }
    }
  }

  /** The account's rows are exactly the current chunks of `messages`, all with vectors. */
  ghost predicate HoldsExactly(s: Store, account: string, messages: seq<Message>, source: Source) {
    && (forall c :: IsCurrent(messages, source, c) ==> HasEmbedding(s, c))
    && (forall id :: id in s.chunks && id.account == account ==>
          exists c: Chunk :: c.id == id && IsCurrent(messages, source, c))
  }

  /**
   An unlimited rebuild without errors leaves exactly the current chunks of the
   messages it was given, whatever was there before, and other accounts alone.
   */
  lemma {:induction false} RebuildReplacesAccount(s: Store, account: string, messages: seq<Message>, source: Source)
    requires WellChunked(source) && DistinctMessages(messages) && Valid(s)
    requires forall i :: 0 <= i < |messages| ==> messages[i].account == account && source.chunksOf(messages[i]).Some?
    requires Rebuild(s, account, messages, false, source).Ok?
    ensures HoldsExactly(Rebuild(s, account, messages, false, source).value, account, messages, source)
    ensures Valid(Rebuild(s, account, messages, false, source).value)
    ensures forall id: ChunkId :: id.account != account ==>
              SameRow(s, Rebuild(s, account, messages, false, source).value, id)
  {
    var rows := Stage(messages, source).value.rows;
    var stored, s' := StoreRows(s, rows), Rebuild(s, account, messages, false, source).value;
    StageExact(messages, source, Chunk(ChunkId(account, "", "", "", 0), ""));
    StageDistinct(messages, source);
    assert s' == RetainAccountChunks(stored, account, rows);
    forall c | IsCurrent(messages, source, c)
      ensures HasEmbedding(s', c)
    {
      StageExact(messages, source, c);
      var i :| 0 <= i < |rows| && rows[i].chunk == c;
      StoreRowsAt(s, rows, c.id);
      assert HasRow(rows, c.id);
    }
    forall id | id in s'.chunks && id.account == account
      ensures exists c: Chunk :: c.id == id && IsCurrent(messages, source, c)
    {
      var i :| 0 <= i < |rows| && rows[i].chunk.id == id;
      assert HasChunk(rows, rows[i].chunk);
      StageExact(messages, source, rows[i].chunk);
    }
    forall i | 0 <= i < |rows|
      ensures rows[i].chunk.id.account == account
    {
      assert HasChunk(rows, rows[i].chunk);
      StageExact(messages, source, rows[i].chunk);
      var k :| 0 <= k < |messages| && Belongs(messages[k], rows[i].chunk, source);
    }
    forall id: ChunkId | id.account != account
      ensures SameRow(s, s', id)
    {
      StoreRowsAt(s, rows, id);
    }
    StoreRowsAt(s, rows, ChunkId(account, "", "", "", 0));
  }

  /** The provider answers for the chunks of a message with as many vectors, each of length `n`. */
  predicate AnswersFor(source: Source, m: Message, n: nat) {
    source.chunksOf(m).Some? && source.chunksOf(m).value != [] ==>
      var texts := Texts(source.chunksOf(m).value);
      && source.embed(texts).Some? && |source.embed(texts).value| == |texts|
      && AreOfLength(source.embed(texts).value, n)
  }

  predicate AreOfLength(vectors: seq<Vector>, n: nat) {
    (vectors != [] ==> n > 0) && forall k :: 0 <= k < |vectors| ==> |vectors[k]| == n
  }

  ghost predicate AnswersAll(source: Source, messages: seq<Message>, n: nat) {
    forall i :: 0 <= i < |messages| ==> AnswersFor(source, messages[i], n)
  }

  predicate AllOfLength(rows: seq<Row>, n: nat) {
    (rows != [] ==> n > 0) && forall i :: 0 <= i < |rows| ==> |rows[i].vector| == n
  }

  lemma {:induction false} ZippedLengths(chunks: seq<Chunk>, vectors: seq<Vector>, n: nat)
    requires |chunks| == |vectors|
    ensures AllOfLength(Zip(chunks, vectors), n) <==> AreOfLength(vectors, n)
  {
    assert forall k :: 0 <= k < |vectors| ==> Zip(chunks, vectors)[k].vector == vectors[k];
  }

  lemma {:induction false} LengthsOfConcat(a: seq<Row>, b: seq<Row>, n: nat)
    ensures AllOfLength(a + b, n) <==> AllOfLength(a, n) && AllOfLength(b, n)
  {
    assert forall k :: 0 <= k < |a| ==> (a + b)[k] == a[k];
    assert forall k :: 0 <= k < |b| ==> (a + b)[|a| + k] == b[k];
  }

  lemma {:induction false} StageMessageLengths(staged: Staged, m: Message, source: Source, n: nat)
    ensures StageMessage(staged, m, source).Ok? && AllOfLength(StageMessage(staged, m, source).value.rows, n) <==>
              AllOfLength(staged.rows, n) && AnswersFor(source, m, n)
  {
    if StageMessage(staged, m, source).Ok? && source.chunksOf(m).Some? && source.chunksOf(m).value != [] {
      var chunks := source.chunksOf(m).value;
      var vectors := source.embed(Texts(chunks)).value;
      ZippedLengths(chunks, vectors, n);
      LengthsOfConcat(staged.rows, Zip(chunks, vectors), n);
    }
  }

  lemma {:induction false} StageLengths(messages: seq<Message>, source: Source, n: nat)
    ensures Stage(messages, source).Ok? && AllOfLength(Stage(messages, source).value.rows, n) <==>
              AnswersAll(source, messages, n)
  {
    if messages != [] {
      var front, last := messages[..|messages| - 1], messages[|messages| - 1];
      StageLengths(front, source, n);
      assert AnswersAll(source, messages, n) <==> AnswersAll(source, front, n) && AnswersFor(source, last, n) by {
        assert forall i :: 0 <= i < |front| ==> front[i] == messages[i];
      }
      if Stage(front, source).Ok? {
        StageMessageLengths(Stage(front, source).value, last, source, n);
      }
    }
  }

  /**
   A rebuild succeeds exactly when the provider answers for every message that
   can be read with as many vectors as it has chunks, all of one nonzero length.
   */
  lemma {:induction false} RebuildSucceedsIff(
      s: Store, account: string, messages: seq<Message>, limited: bool, source: Source)
    ensures Rebuild(s, account, messages, limited, source).Ok? <==> exists n :: AnswersAll(source, messages, n)
  {
    if Stage(messages, source).Ok? {
      var rows := Stage(messages, source).value.rows;
      var n := if rows == [] then 0 else |rows[0].vector|;
      if SameDimensions(rows) {
        assert AllOfLength(rows, n);
        StageLengths(messages, source, n);
      }
    }
    if n :| AnswersAll(source, messages, n) {
      StageLengths(messages, source, n);
    }
  }

  lemma {:induction false} StageIsAnswered(messages: seq<Message>, source: Source)
    requires Stage(messages, source).Ok?
    ensures forall row :: row in Stage(messages, source).value.rows ==> Answered(source, row.chunk.text, row.vector)
  {
    if messages != [] {
      var n := |messages| - 1;
      var m, staged := messages[n], Stage(messages[..n], source).value;
      StageIsAnswered(messages[..n], source);
      if source.chunksOf(m).Some? && source.chunksOf(m).value != [] {
        var chunks := source.chunksOf(m).value;
        var rows := Zip(chunks, source.embed(Texts(chunks)).value);
        forall row | row in rows
          ensures Answered(source, row.chunk.text, row.vector)
        {
          var i :| 0 <= i < |rows| && rows[i] == row;
          assert AnsweredAt(source, Texts(chunks), i, row.chunk.text, row.vector);
        }
      }
    }
  }

  ghost predicate CurrentHaveVectors(s: Store, messages: seq<Message>, source: Source, n: nat) {
    forall c :: IsCurrent(messages, source, c) ==> HasVector(s, c, source, n)
  }

  /** Every rebuild leaves the chunks it read with the vectors given for their texts, all of one length. */
  lemma {:induction false} RebuildStores(
      s: Store, account: string, messages: seq<Message>, limited: bool, source: Source)
    requires WellChunked(source) && DistinctMessages(messages) && Rebuild(s, account, messages, limited, source).Ok?
    ensures exists n ::
              CurrentHaveVectors(Rebuild(s, account, messages, limited, source).value, messages, source, n)
  {
    var rows, s' := Stage(messages, source).value.rows, Rebuild(s, account, messages, limited, source).value;
    StageDistinct(messages, source);
    StageIsAnswered(messages, source);
    var n := if rows == [] then 0 else |rows[0].vector|;
    forall c | IsCurrent(messages, source, c)
      ensures HasVector(s', c, source, n)
    {
      StageExact(messages, source, c);
      var i :| 0 <= i < |rows| && rows[i].chunk == c;
      StoreRowsAt(s, rows, c.id);
      assert HasRow(rows, c.id) && rows[i] in rows;
      assert s'.vectors[c.id] == rows[i].vector;
    }
    assert CurrentHaveVectors(s', messages, source, n);
  }

  /**
   Any other rebuild that succeeds, limited or with messages it could not read,
   sets the rows of the chunks it read and leaves every other row of every
   account as it was: nothing is removed.
   */
  lemma {:induction false} PartialRebuildOnlyAdds(
      s: Store, account: string, messages: seq<Message>, limited: bool, source: Source)
    requires WellChunked(source) && DistinctMessages(messages) && Rebuild(s, account, messages, limited, source).Ok?
    requires limited || !AllRead(messages, source)
    ensures
      var s' := Rebuild(s, account, messages, limited, source).value;
      && s.chunks.Keys <= s'.chunks.Keys && s.vectors.Keys <= s'.vectors.Keys
      && (forall c :: IsCurrent(messages, source, c) ==>
            c.id in s'.chunks && s'.chunks[c.id] == c.text && c.id in s'.vectors)
      && forall id :: (forall c :: IsCurrent(messages, source, c) ==> c.id != id) ==> SameRow(s, s', id)
  {
    var rows, s' := Stage(messages, source).value.rows, Rebuild(s, account, messages, limited, source).value;
    StageExact(messages, source, Chunk(ChunkId(account, "", "", "", 0), ""));
    StageDistinct(messages, source);
    assert s' == StoreRows(s, rows);
    forall c | IsCurrent(messages, source, c)
      ensures c.id in s'.chunks && s'.chunks[c.id] == c.text && c.id in s'.vectors
    {
      StageExact(messages, source, c);
      var i :| 0 <= i < |rows| && rows[i].chunk == c;
      StoreRowsAt(s, rows, c.id);
    }
    forall id
      ensures (forall c :: IsCurrent(messages, source, c) ==> c.id != id) ==> SameRow(s, s', id)
      ensures (id in s.chunks ==> id in s'.chunks) && (id in s.vectors ==> id in s'.vectors)
    {
      StoreRowsAt(s, rows, id);
      if i :| 0 <= i < |rows| && rows[i].chunk.id == id {
        assert HasChunk(rows, rows[i].chunk);
        StageExact(messages, source, rows[i].chunk);
      }
    }
  }

  /** The messages a handle filter selects. */
  function Selected(messages: seq<Message>, handles: set<string>): seq<Message> {
    if messages == [] then []
    else (if messages[0].messageId in handles then [messages[0]] else []) + Selected(messages[1..], handles)
  }

  lemma {:induction false} SelectedExact(messages: seq<Message>, handles: set<string>, m: Message)
    ensures m in Selected(messages, handles) <==> m in messages && m.messageId in handles
  {
    if messages != [] {
      SelectedExact(messages[1..], handles, m);
      assert messages == [messages[0]] + messages[1..];
    }
  }

  lemma {:induction false} SelectedDistinct(messages: seq<Message>, handles: set<string>)
    requires DistinctMessages(messages)
    ensures DistinctMessages(Selected(messages, handles))
  {
    if messages != [] {
      SelectedDistinct(messages[1..], handles);
      forall m | m in Selected(messages[1..], handles)
        ensures m.messageId != messages[0].messageId
      {
        SelectedExact(messages[1..], handles, m);
        var i :| 0 <= i < |messages[1..]| && messages[1..][i] == m;
        assert messages[i + 1] == m;
      }
    }
  }

  /**
   Nothing checks that a rebuild is unfiltered: given a handle filter it prunes
   every message it did not select. It leaves the account's full set of chunks
   exactly when the filter selected every message.
   */
  lemma {:induction false} FilteredRebuildIsFullIffAllSelected(
      s: Store, account: string, messages: seq<Message>, handles: set<string>, source: Source)
    requires WellChunked(source) && DistinctMessages(messages) && Valid(s)
    requires forall i :: 0 <= i < |messages| ==> messages[i].account == account && source.chunksOf(messages[i]).Some?
    requires Rebuild(s, account, Selected(messages, handles), false, source).Ok?
    ensures HoldsExactly(
              Rebuild(s, account, Selected(messages, handles), false, source).value, account, messages, source)
            <==> forall i :: 0 <= i < |messages| ==> messages[i].messageId in handles
  {
    var selected := Selected(messages, handles);
    SelectedDistinct(messages, handles);
    forall i | 0 <= i < |selected|
      ensures selected[i].account == account && source.chunksOf(selected[i]).Some?
    {
      assert selected[i] in selected;
      SelectedExact(messages, handles, selected[i]);
    }
    RebuildReplacesAccount(s, account, selected, source);
    var s' := Rebuild(s, account, selected, false, source).value;
    if forall i :: 0 <= i < |messages| ==> messages[i].messageId in handles {
      AllSelected(messages, handles);
    } else {
      var i :| 0 <= i < |messages| && messages[i].messageId !in handles;
      UnselectedIsPruned(s', account, messages, handles, source, i);
    }
  }

  /** With a filter that selects nothing the rebuild succeeds, and the account's messages are gone. */
  lemma {:induction false} EmptyFilterPrunesAll(s: Store, account: string, messages: seq<Message>, source: Source)
    requires WellChunked(source) && DistinctMessages(messages) && Valid(s) && messages != []
    requires forall i :: 0 <= i < |messages| ==> messages[i].account == account && source.chunksOf(messages[i]).Some?
    ensures Rebuild(s, account, Selected(messages, {}), false, source).Ok?
    ensures !HoldsExactly(Rebuild(s, account, Selected(messages, {}), false, source).value, account, messages, source)
  {
    NothingSelected(messages);
    FilteredRebuildIsFullIffAllSelected(s, account, messages, {}, source);
  }

  lemma {:induction false} NothingSelected(messages: seq<Message>)
    ensures Selected(messages, {}) == []
  {
    if messages != [] {
      NothingSelected(messages[1..]);
    }
  }

  lemma {:induction false} AllSelected(messages: seq<Message>, handles: set<string>)
    requires forall i :: 0 <= i < |messages| ==> messages[i].messageId in handles
    ensures Selected(messages, handles) == messages
  {
    if messages != [] {
      AllSelected(messages[1..], handles);
    }
  }

  lemma {:induction false} UnselectedIsPruned(
      s: Store, account: string, messages: seq<Message>, handles: set<string>, source: Source, i: nat)
    requires WellChunked(source) && i < |messages| && messages[i].messageId !in handles
    requires messages[i].account == account && source.chunksOf(messages[i]).Some?
    requires HoldsExactly(s, account, Selected(messages, handles), source)
    ensures !HoldsExactly(s, account, messages, source)
  {
    var c := source.chunksOf(messages[i]).value[0];
    assert Belongs(messages[i], c, source);
    assert IsCurrent(messages, source, c);
    if HasEmbedding(s, c) {
      var d: Chunk :| d.id == c.id && IsCurrent(Selected(messages, handles), source, d);
      var k :| 0 <= k < |Selected(messages, handles)| && Belongs(Selected(messages, handles)[k], d, source);
      SelectedExact(messages, handles, Selected(messages, handles)[k]);
    }
  }

  ghost predicate AllRead(messages: seq<Message>, source: Source) {
    forall i :: 0 <= i < |messages| ==> source.chunksOf(messages[i]).Some?
  }

  lemma {:induction false} StoreRowsGrows(s: Store, rows: seq<Row>)
    ensures s.chunks.Keys <= StoreRows(s, rows).chunks.Keys && s.vectors.Keys <= StoreRows(s, rows).vectors.Keys
    decreases |rows|
  {
    if rows != [] {
      var id := rows[0].chunk.id;
      StoreRowsGrows(Store(s.chunks[id := rows[0].chunk.text], s.vectors[id := rows[0].vector]), rows[1..]);
    }
  }

  /** A message whose embedding fails, fails the stage. */
  lemma {:induction false} StageStops(messages: seq<Message>, i: nat, source: Source)
    requires i < |messages| && Stage(messages[..i], source).Ok?
    requires StageMessage(Stage(messages[..i], source).value, messages[i], source).Err?
    ensures Stage(messages, source).Err?
  {
    var n := |messages| - 1;
    if i < n {
      assert messages[..n][..i] == messages[..i];
      StageStops(messages[..n], i, source);
    } else {
      assert messages[..n] == messages[..i];
    }
  }

  // ----- the run, in place -----

  class EmbeddingIndex {
    var store: Store

    constructor (store: Store)
      ensures this.store == store
    {
      this.store := store;
    }

    /**
     `index_embeddings_with_provider` over the listed messages. An incremental
     run keeps what it stored before a failure; a failed rebuild keeps the
     store as it was.
     */
    method IndexEmbeddings(account: string, listed: seq<Message>, limit: Option<nat>, rebuild: bool, source: Source)
      returns (r: Result<nat>)
      modifies this
      ensures rebuild && r.Err? ==> store == old(store)
      ensures rebuild ==>
                (r.Ok? <==> Rebuild(old(store), account, Limited(listed, limit), limit.Some?, source).Ok?)
      ensures rebuild && r.Ok? ==>
                Rebuild(old(store), account, Limited(listed, limit), limit.Some?, source) == Ok(store)
      ensures !rebuild && r.Ok? ==>
                var run := Incremental(Progress(old(store), 0, 0), Limited(listed, limit), source);
                run.Ok? && store == run.value.store && r.value == run.value.embedded
      ensures !rebuild && r.Err? ==> Interrupted(old(store), store, Limited(listed, limit), source)
      ensures rebuild && (limit.Some? || !AllRead(listed, source)) ==>
                old(store).chunks.Keys <= store.chunks.Keys && old(store).vectors.Keys <= store.vectors.Keys
      ensures Limited(listed, limit) <= listed
      ensures |Limited(listed, limit)| ==
              if limit.Some? && limit.value <= |listed| then limit.value else |listed|
    {
      if rebuild {
        r := RunRebuild(account, Limited(listed, limit), limit.Some?, source);
      } else {
        r := RunIncremental(Limited(listed, limit), source);
      }
    }

    method RunIncremental(messages: seq<Message>, source: Source) returns (r: Result<nat>)
      modifies this
      ensures r.Ok? ==>
                var run := Incremental(Progress(old(store), 0, 0), messages, source);
                run.Ok? && store == run.value.store && r.value == run.value.embedded
      ensures r.Err? ==> Interrupted(old(store), store, messages, source)
    {
      var embedded, errors := 0, 0;
      for i := 0 to |messages|
        invariant Incremental(Progress(old(store), 0, 0), messages[..i], source) ==
                    Ok(Progress(store, embedded, errors))
      {
        var step := IndexMessage(Progress(store, embedded, errors), messages[i], source);
        if step.Err? {
          assert FailsAfter(old(store), store, messages, i, source);
          return Err;
        }
        assert messages[..i + 1] == messages[..i] + [messages[i]];
        IncrementalThenOne(Progress(old(store), 0, 0), messages[..i], messages[i], source);
        store, embedded, errors := step.value.store, step.value.embedded, step.value.errors;
      }
      assert messages[..|messages|] == messages;
      return Ok(embedded);
    }

    method RunRebuild(account: string, messages: seq<Message>, limited: bool, source: Source) returns (r: Result<nat>)
      modifies this
      ensures r.Err? ==> store == old(store)
      ensures r.Ok? <==> Rebuild(old(store), account, messages, limited, source).Ok?
      ensures r.Ok? ==> Rebuild(old(store), account, messages, limited, source) == Ok(store)
      ensures limited || !AllRead(messages, source) ==>
                old(store).chunks.Keys <= store.chunks.Keys && old(store).vectors.Keys <= store.vectors.Keys
    {
      var staged := Staged([], 0);
      for i := 0 to |messages|
        invariant store == old(store)
        invariant Stage(messages[..i], source) == Ok(staged)
      {
        assert messages[..i + 1][..i] == messages[..i];
        var step := StageMessage(staged, messages[i], source);
        if step.Err? {
          StageStops(messages, i, source);
          return Err;
        }
        staged := step.value;
      }
      assert messages[..|messages|] == messages;
      StageExact(messages, source, Chunk(ChunkId(account, "", "", "", 0), ""));
      StoreRowsGrows(store, staged.rows);
      if !limited && staged.errors == 0 {
        var replaced := ReplaceAccount(store, account, staged.rows);
        if replaced.Err? {
          return Err;
        }
        store := replaced.value;
      } else if staged.rows != [] {
        if !SameDimensions(staged.rows) {
          return Err;
        }
        store := StoreRows(store, staged.rows);
      }
      return Ok(|staged.rows|);
    }
  }

  function Limited(messages: seq<Message>, limit: Option<nat>): seq<Message> {
    if limit.Some? && limit.value < |messages| then messages[..limit.value] else messages
  }
}
