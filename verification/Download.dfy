/**
 The download pool: the missing messages are cut into chunks, and a few workers
 share the chunks through one cursor and add what they stored to one result.
 Workers interleave in any order and may fail at any point.
 */
module Download {
  import opened Basics

  /** A catalog entry, by its message id. */
  type Entry = string

  const CHUNK_SIZE: nat := 100
  const WORKER_COUNT: nat := 4

  function Chunks<T>(missing: seq<T>): (chunks: seq<seq<T>>)
    decreases |missing|
  {
    if missing == [] then []
    else if |missing| <= CHUNK_SIZE then [missing]
    else [missing[..CHUNK_SIZE]] + Chunks(missing[CHUNK_SIZE..])
  }

  /** The chunks are the missing list cut in order, none of them empty or over the size. */
  lemma {:induction false} ChunksPartition<T>(missing: seq<T>)
    ensures Flatten(Chunks(missing)) == missing
    ensures forall i :: 0 <= i < |Chunks(missing)| ==> 0 < |Chunks(missing)[i]| <= 100
    ensures |Chunks(missing)| == (|missing| + 99) / 100
    decreases |missing|
  {
    if |missing| > CHUNK_SIZE {
      ChunksPartition(missing[CHUNK_SIZE..]);
      assert missing == missing[..CHUNK_SIZE] + missing[CHUNK_SIZE..];
    } else if missing != [] {
      assert Flatten([missing]) == missing + Flatten([]);
    }
  }

  /** Where message `p` of the list went: one chunk, at one offset. */
  lemma {:induction false} ChunkOf<T>(missing: seq<T>, p: nat)
    requires p < |missing|
    ensures p / CHUNK_SIZE < |Chunks(missing)| && p % CHUNK_SIZE < |Chunks(missing)[p / CHUNK_SIZE]|
    ensures Chunks(missing)[p / CHUNK_SIZE][p % CHUNK_SIZE] == missing[p]
    decreases |missing|
  {
    if |missing| > CHUNK_SIZE {
      if p >= CHUNK_SIZE {
        ChunkOf(missing[CHUNK_SIZE..], p - CHUNK_SIZE);
        assert p / CHUNK_SIZE == (p - CHUNK_SIZE) / CHUNK_SIZE + 1 && p % CHUNK_SIZE == (p - CHUNK_SIZE) % CHUNK_SIZE;
      }
    }
  }

  // ----- the pool -----

  datatype Worker =
    | Opening
    | Waiting
    | Holding(chunk: nat)
    | Storing(chunk: nat, entries: seq<Entry>)
    | Finished
    | Failed

  /**
   `takers[c]` is the worker that took chunk c, so its length is the cursor;
   `requests` logs every fetch; `fetched` and `entries` are the shared result.
   */
  datatype Pool = Pool(
    chunks: nat, workers: seq<Worker>, takers: seq<nat>, requests: seq<nat>, completed: set<nat>, newCount: nat,
    entries: seq<Entry>)

  function Started(chunks: nat): Pool {
    Pool(chunks, seq(if WORKER_COUNT < chunks then WORKER_COUNT else chunks, _ => Opening), [], [], {}, 0, [])
  }

  function Moved(s: Pool, w: nat, to: Worker): Pool
    requires w < |s.workers|
  {
    s.(workers := s.workers[w := to])
  }

  datatype Action = Open | Take | Fetch(entries: seq<Entry>) | Publish | Fail

  ghost predicate Step(s: Pool, w: nat, a: Action, s': Pool) {
    && w < |s.workers|
    && match a
       case Open => s.workers[w].Opening? && s' == Moved(s, w, Waiting)
       case Take =>
         s.workers[w].Waiting? &&
         s' == if |s.takers| >= s.chunks then Moved(s, w, Finished)
               else Moved(s, w, Holding(|s.takers|)).(takers := s.takers + [w])
       case Fetch(entries) =>
         s.workers[w].Holding? &&
         s' == Moved(s, w, Storing(s.workers[w].chunk, entries)).(requests := s.requests + [s.workers[w].chunk])
       case Publish =>
         s.workers[w].Storing? &&
         s' == Moved(s, w, Waiting).(completed := s.completed + {s.workers[w].chunk},
                                     newCount := s.newCount + |s.workers[w].entries|,
                                     entries := s.entries + s.workers[w].entries)
       case Fail =>
         !s.workers[w].Finished? && s' == Moved(s, w, Failed)
  }

  ghost predicate Next(s: Pool, s': Pool) {
    exists w, a :: Step(s, w, a, s')
  }

  ghost predicate IsRun(run: seq<Pool>, chunks: nat) {
    && run != [] && run[0] == Started(chunks)
    && forall i :: 0 <= i < |run| - 1 ==> Next(run[i], run[i + 1])
  }

  predicate Handles(w: Worker, chunk: nat) {
    (w.Holding? || w.Storing?) && w.chunk == chunk
  }

  predicate Distinct(s: seq<nat>) {
    forall i, j :: 0 <= i < j < |s| ==> s[i] != s[j]
  }

  /** A taken chunk is with the one worker that took it, or completed, or lost with that worker. */
  ghost predicate Accounted(s: Pool, c: nat)
    requires c < |s.takers|
  {
    && s.takers[c] < |s.workers|
    && (c in s.completed || Handles(s.workers[s.takers[c]], c) || s.workers[s.takers[c]].Failed?)
    && (c in s.completed ==> c in s.requests)
  }

  ghost predicate Inv(s: Pool) {
    && |s.takers| <= s.chunks
    && (forall c :: 0 <= c < |s.takers| ==> Accounted(s, c))
    && (forall w :: 0 <= w < |s.workers| && (s.workers[w].Holding? || s.workers[w].Storing?) ==>
          && s.workers[w].chunk < |s.takers| && s.takers[s.workers[w].chunk] == w
          && s.workers[w].chunk !in s.completed
          && (s.workers[w].Holding? <==> s.workers[w].chunk !in s.requests))
    && (forall w :: 0 <= w < |s.workers| && s.workers[w].Finished? ==> |s.takers| == s.chunks)
    && Distinct(s.requests)
    && (forall c :: c in s.requests ==> c < |s.takers|)
    && (forall c :: c in s.completed ==> c < |s.takers|)
    && s.newCount == |s.entries|
    && |s.workers| == (if WORKER_COUNT < s.chunks then WORKER_COUNT else s.chunks)
  }

  lemma {:induction false} StepKeepsAccount(s: Pool, w: nat, a: Action, s': Pool, c: nat)
    requires Inv(s) && Step(s, w, a, s') && c < |s'.takers|
    ensures Accounted(s', c)
  {
    if c < |s.takers| {
      assert Accounted(s, c);
    }
  }

  lemma {:induction false} StepKeepsInv(s: Pool, w: nat, a: Action, s': Pool)
    requires Inv(s) && Step(s, w, a, s')
    ensures Inv(s')
  {
    forall c | 0 <= c < |s'.takers|
      ensures Accounted(s', c)
    {
      StepKeepsAccount(s, w, a, s', c);
    }
  }

  lemma {:induction false} RunsKeepInv(run: seq<Pool>, chunks: nat, i: nat)
    requires IsRun(run, chunks) && i < |run|
    ensures Inv(run[i]) && run[i].chunks == chunks
  {
    if i > 0 {
      RunsKeepInv(run, chunks, i - 1);
      assert Next(run[i - 1], run[i - 1 + 1]);
      var w, a :| Step(run[i - 1], w, a, run[i]);
      StepKeepsInv(run[i - 1], w, a, run[i]);
    }
  }

  /** In every state the count of new messages is the number of catalog entries. */
  lemma {:induction false} CountMatchesEntries(run: seq<Pool>, chunks: nat, i: nat)
    requires IsRun(run, chunks) && i < |run|
    ensures run[i].newCount == |run[i].entries|
  {
    RunsKeepInv(run, chunks, i);
  }

  /** No chunk is requested twice, by one worker or by two, in any interleaving. */
  lemma {:induction false} NoChunkRequestedTwice(run: seq<Pool>, chunks: nat, i: nat, m: nat, n: nat)
    requires IsRun(run, chunks) && i < |run| && m < n < |run[i].requests|
    ensures run[i].requests[m] != run[i].requests[n]
  {
    RunsKeepInv(run, chunks, i);
  }

  /** A chunk keeps the worker that took it. */
  lemma {:induction false} TakersLast(run: seq<Pool>, chunks: nat, i: nat, j: nat)
    requires IsRun(run, chunks) && i <= j < |run|
    ensures run[i].takers <= run[j].takers
  {
    if i < j {
      TakersLast(run, chunks, i, j - 1);
      assert Next(run[j - 1], run[j - 1 + 1]);
      var w, a :| Step(run[j - 1], w, a, run[j]);
    }
  }

  ghost predicate AllFinished(s: Pool) {
    forall w :: 0 <= w < |s.workers| ==> s.workers[w].Finished?
  }

  /**
   When every worker returns without error, every chunk has been requested
   exactly once and its entries published: each missing message was asked for
   once, and the chunks together are the missing list.
   */
  lemma {:induction false} FinishedPoolFetchedEverything<T>(missing: seq<T>, run: seq<Pool>, i: nat, p: nat)
    requires IsRun(run, |Chunks(missing)|) && i < |run| && AllFinished(run[i]) && p < |missing|
    ensures Flatten(Chunks(missing)) == missing
    ensures exists k :: 0 <= k < |run[i].requests| && run[i].requests[k] == p / CHUNK_SIZE
    ensures forall k, k' :: 0 <= k < |run[i].requests| && 0 <= k' < |run[i].requests| ==>
              run[i].requests[k] == run[i].requests[k'] ==> k == k'
    ensures forall k :: 0 <= k < |run[i].requests| ==> run[i].requests[k] < |Chunks(missing)|
    ensures p / CHUNK_SIZE in run[i].completed && |run[i].workers| <= 4
  {
    var s := run[i];
    RunsKeepInv(run, |Chunks(missing)|, i);
    ChunksPartition(missing);
    ChunkOf(missing, p);
    var c := p / CHUNK_SIZE;
    assert s.workers[0].Finished?;
    assert Accounted(s, c);
    var k :| 0 <= k < |s.requests| && s.requests[k] == c;
    forall k | 0 <= k < |s.requests|
      ensures s.requests[k] < |s.takers|
    {
      assert s.requests[k] in s.requests;
    }
  }

  /** A chunk taken by a worker that then fails is never asked for: only a pool without errors fetched everything. */
  lemma {:induction false} FailedWorkerLosesItsChunk()
    ensures exists run: seq<Pool> ::
              && IsRun(run, 1) && |run| == 4
              && run[3].workers == [Failed] && run[3].takers == [0] && run[3].requests == [] && run[3].completed == {}
  {
    var opening := Started(1);
    var waiting := Moved(opening, 0, Waiting);
    var holding := Moved(waiting, 0, Holding(0)).(takers := [0]);
    var failed := Moved(holding, 0, Failed);
    assert Step(opening, 0, Open, waiting);
    assert Step(waiting, 0, Take, holding) by {
      assert waiting.takers + [0] == [0];
    }
    assert Step(holding, 0, Fail, failed);
    var run := [opening, waiting, holding, failed];
    assert Next(run[0], run[1]) && Next(run[1], run[2]) && Next(run[2], run[3]);
    assert IsRun(run, 1);
    assert failed.workers == [Failed];
  }

  // ----- the shared state, in place -----

  class Shared {
    var cursor: nat
    var newCount: nat
    var entries: seq<Entry>

    constructor ()
      ensures cursor == 0 && newCount == 0 && entries == []
    {
      cursor, newCount, entries := 0, 0, [];
    }

    /** `next_chunk`, under the cursor's lock. */
    method NextChunk<T>(chunks: seq<seq<T>>) returns (chunk: Option<seq<T>>)
      modifies this`cursor
      ensures old(cursor) >= |chunks| ==> chunk == None && cursor == old(cursor)
      ensures old(cursor) < |chunks| ==> chunk == Some(chunks[old(cursor)]) && cursor == old(cursor) + 1
    {
      if cursor >= |chunks| {
        return None;
      }
      chunk := Some(chunks[cursor]);
      cursor := cursor + 1;
    }

    /** What a worker adds to the result, under the result's lock. */
    method Publish(more: seq<Entry>)
      requires newCount == |entries|
      modifies this`newCount, this`entries
      ensures newCount == |entries| && entries == old(entries) + more
    {
      if more != [] {
        newCount := newCount + |more|;
        entries := entries + more;
      }
    }
  }
}
