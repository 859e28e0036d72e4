/**
 The agent poll: a lock file admits one poller at a time, the poller picks the
 earliest unclaimed message of the trusted sender, claims its thread in the
 ledger, and only then runs Codex.

 Pollers are interleaved statement by statement and may die at any of them. A
 poller that dies, or fails while writing its lock file, leaves the file
 behind; one that returns later, even with an error, removes it.
 */
module AgentPoll {
  import opened Basics
  import Ordering
  import Threads

  type Poller = nat
  type BatchId = nat

  /** Whose mail counts as instructions, and in which folder. */
  datatype Options = Options(folder: string, trusted: string -> bool)

  datatype Batch = Batch(seed: string, ids: seq<string>)

  // ----- choosing a batch -----

  predicate Candidate(m: Threads.IndexedMessage, claimed: set<string>, options: Options) {
    m.localRole == options.folder && options.trusted(m.fromAddr) && m.messageId !in claimed
  }

  predicate Eligible(index: Threads.Index, claimed: set<string>, options: Options, id: string) {
    id in index.messages && Candidate(index.messages[id], claimed, options)
  }

  predicate Distinct(ids: seq<string>) {
    forall i, j :: 0 <= i < j < |ids| ==> ids[i] != ids[j]
  }

  /**
   The seed is the earliest eligible message, the batch is itself and eligible
   thread mates, each once; within the walk limit it has all of them.
   */
  ghost predicate IsNextBatch(index: Threads.Index, claimed: set<string>, options: Options, batch: Batch) {
    && Eligible(index, claimed, options, batch.seed)
    && (forall id :: Eligible(index, claimed, options, id) && id != batch.seed ==>
          Ordering.Before(Threads.StampOf(index.messages[batch.seed]), Threads.StampOf(index.messages[id])))
    && batch.seed in batch.ids && Distinct(batch.ids)
    && (forall id :: id in batch.ids ==> Eligible(index, claimed, options, id))
    && (forall id :: id in batch.ids ==> id in Threads.Reachable(index, batch.seed))
    && (index.Rebuilt() && Threads.WithinLimit(index.links, batch.seed) ==>
          forall id :: Eligible(index, claimed, options, id) && id in Threads.Component(index.links, batch.seed) ==>
            id in batch.ids)
  }

  /** The first of the date-ordered candidates seeds the batch. */
  method NextBatch(index: Threads.Index, claimed: set<string>, options: Options) returns (batch: Option<Batch>)
    requires index.Valid()
    ensures batch.Some? ==> IsNextBatch(index, claimed, options, batch.value)
    ensures batch.None? ==> forall id :: !Eligible(index, claimed, options, id)
    ensures batch.Some? ==> forall id :: id in batch.value.ids ==>
              && id in index.messages && options.trusted(index.messages[id].fromAddr)
              && index.messages[id].localRole == options.folder && id !in claimed
    ensures batch.Some? ==> batch.value.seed in batch.value.ids
    ensures batch.Some? ==> forall id ::
              (&& id in index.messages && options.trusted(index.messages[id].fromAddr)
               && index.messages[id].localRole == options.folder && id !in claimed) ==>
              !Ordering.Less(index.messages[id].date, index.messages[batch.value.seed].date)
    ensures batch.None? ==> forall id ::
              (&& id in index.messages && options.trusted(index.messages[id].fromAddr)
               && index.messages[id].localRole == options.folder) ==> id in claimed
  {
    var messages := Threads.MessagesForMessageIds(index, index.messages.Keys);
    for i := 0 to |messages|
      invariant forall k :: 0 <= k < i ==> !Candidate(messages[k], claimed, options)
    {
      var candidate := messages[i];
      assert candidate in messages;
      if !Candidate(candidate, claimed, options) {
        continue;
      }
      var thread := Threads.ThreadMessages(index, candidate.messageId);
      if thread.Err? {
        assert false;
      }
      var ids := ClaimedIds(thread.value, claimed, options);
      SeedIsEarliest(index, claimed, options, messages, i);
      batch := Some(Batch(candidate.messageId, ids));
      NextBatchIsTrusted(index, claimed, options, batch.value);
      return;
    }
    forall id | id in index.messages
      ensures !Eligible(index, claimed, options, id)
    {
      assert index.messages[id] in messages;
    }
    return None;
  }

  /** Whatever is in a next batch is trusted mail of the folder, and none of it is older than the seed. */
  lemma {:induction false} NextBatchIsTrusted(
      index: Threads.Index, claimed: set<string>, options: Options, batch: Batch)
    requires index.Valid() && IsNextBatch(index, claimed, options, batch)
    ensures forall id :: id in batch.ids ==>
              && id in index.messages && options.trusted(index.messages[id].fromAddr)
              && index.messages[id].localRole == options.folder && id !in claimed
    ensures batch.seed in batch.ids
    ensures forall id ::
              (&& id in index.messages && options.trusted(index.messages[id].fromAddr)
               && index.messages[id].localRole == options.folder && id !in claimed) ==>
              !Ordering.Less(index.messages[id].date, index.messages[batch.seed].date)
  {
    forall id | id in batch.ids
      ensures id in index.messages && options.trusted(index.messages[id].fromAddr)
      ensures index.messages[id].localRole == options.folder && id !in claimed
    {
      assert Eligible(index, claimed, options, id) && index.messages[id].messageId == id;
    }
    forall id | id in index.messages && options.trusted(index.messages[id].fromAddr) &&
      index.messages[id].localRole == options.folder && id !in claimed
      ensures !Ordering.Less(index.messages[id].date, index.messages[batch.seed].date)
    {
      assert index.messages[id].messageId == id;
      assert Eligible(index, claimed, options, id);
      Ordering.LessIrreflexive(index.messages[id].date);
      if id != batch.seed {
        Ordering.BeforeIff(Threads.StampOf(index.messages[batch.seed]), Threads.StampOf(index.messages[id]));
      }
    }
  }

  lemma {:induction false} SeedIsEarliest(
      index: Threads.Index, claimed: set<string>, options: Options, messages: seq<Threads.IndexedMessage>, i: nat)
    requires index.Valid() && Threads.IsOrdered(index, index.messages.Keys, messages) && i < |messages|
    requires forall k :: 0 <= k < i ==> !Candidate(messages[k], claimed, options)
    ensures forall id :: Eligible(index, claimed, options, id) && id != messages[i].messageId ==>
              Ordering.Before(Threads.StampOf(messages[i]), Threads.StampOf(index.messages[id]))
  {
    forall id | Eligible(index, claimed, options, id) && id != messages[i].messageId
      ensures Ordering.Before(Threads.StampOf(messages[i]), Threads.StampOf(index.messages[id]))
    {
      assert index.messages[id] in messages;
      var k :| 0 <= k < |messages| && messages[k] == index.messages[id];
      assert k > i;
    }
  }

  method ClaimedIds(
      thread: seq<Threads.IndexedMessage>, claimed: set<string>, options: Options) returns (ids: seq<string>)
    requires Threads.DistinctIds(thread)
    ensures Distinct(ids)
    ensures forall id :: id in ids <==> exists m :: m in thread && m.messageId == id && Candidate(m, claimed, options)
  {
    ids := [];
    for i := 0 to |thread|
      invariant Distinct(ids)
      invariant forall id :: id in ids <==>
                  exists k :: 0 <= k < i && thread[k].messageId == id && Candidate(thread[k], claimed, options)
    {
      if Candidate(thread[i], claimed, options) {
        assert thread[i].messageId !in ids;
        ids := ids + [thread[i].messageId];
      }
    }
  }

  // ----- the poll, statement by statement -----

  datatype Progress =
    | Ready
    | Locked
    | Chosen(batch: Batch)
    | Claiming(batchId: BatchId, batch: Batch, done: nat)
    | Running(batchId: BatchId, batch: Batch)
    | Returned
    | Dead
  {
    /** Past the lock: the lock file is this poller's own. */
    predicate Holding() {
      !Ready? && !Returned? && !Dead?
    }
  }

  datatype Run = Run(batchId: BatchId, batch: Batch)

  /** `claims` is keyed by message id, so a second claim of one message fails; `runs` logs every start of Codex. */
  datatype State = State(
    lock: bool,
    pollers: map<Poller, Progress>,
    nextBatch: BatchId,
    claims: map<string, BatchId>,
    runs: seq<Run>)

  predicate At(s: State, p: Poller, progress: Progress) {
    p in s.pollers && s.pollers[p] == progress
  }

  function Moved(s: State, p: Poller, progress: Progress): State {
    s.(pollers := s.pollers[p := progress])
  }

  /** Any return, with or without an error, drops the lock. */
  function Released(s: State, p: Poller): State {
    Moved(s, p, Returned).(lock := false)
  }

  datatype Action =
    | Arrive
    | Acquire
    | Choose(index: Threads.Index, options: Options, batch: Batch)
    | GiveUp
    | OpenBatch
    | ClaimNext
    | StartCodex
    | Finish
    | Die

  ghost predicate Step(s: State, p: Poller, a: Action, s': State) {
    match a
    case Arrive =>
      p !in s.pollers && s' == Moved(s, p, Ready)
    case Acquire =>
      At(s, p, Ready) && s' == if s.lock then Moved(s, p, Returned) else Moved(s, p, Locked).(lock := true)
    case Choose(index, options, batch) =>
      At(s, p, Locked) && index.Valid() && IsNextBatch(index, s.claims.Keys, options, batch) &&
      s' == Moved(s, p, Chosen(batch))
    case GiveUp =>
      p in s.pollers && s.pollers[p].Holding() && s' == Released(s, p)
    case OpenBatch =>
      p in s.pollers && s.pollers[p].Chosen? &&
      s' == Moved(s, p, Claiming(s.nextBatch, s.pollers[p].batch, 0)).(nextBatch := s.nextBatch + 1)
    case ClaimNext =>
      p in s.pollers && s.pollers[p].Claiming? && ClaimStep(s, p, s.pollers[p], s')
    case StartCodex =>
      p in s.pollers && s.pollers[p].Claiming? && s.pollers[p].done == |s.pollers[p].batch.ids| &&
      s' == Moved(s, p, Running(s.pollers[p].batchId, s.pollers[p].batch)).(
        runs := s.runs + [Run(s.pollers[p].batchId, s.pollers[p].batch)])
    case Finish =>
      p in s.pollers && s.pollers[p].Running? && s' == Released(s, p)
    case Die =>
      p in s.pollers && s' == Moved(s, p, Dead)
  }

  /** One insert into the ledger; the primary key refuses a message claimed before, and the poll returns the error. */
  ghost predicate ClaimStep(s: State, p: Poller, at: Progress, s': State)
    requires at.Claiming?
  {
    && at.done < |at.batch.ids|
    && var id := at.batch.ids[at.done];
       s' == if id in s.claims then Released(s, p)
             else Moved(s, p, at.(done := at.done + 1)).(claims := s.claims[id := at.batchId])
  }

  ghost predicate Next(s: State, s': State) {
    exists p, a :: Step(s, p, a, s')
  }

  ghost predicate IsRun(run: seq<State>) {
    && run != []
    && !run[0].lock && run[0].pollers == map[] && run[0].claims == map[] && run[0].runs == []
    && forall i :: 0 <= i < |run| - 1 ==> Next(run[i], run[i + 1])
  }

  // ----- the invariant -----

  /** What a poller past the lock may rely on about its own batch. */
  predicate HolderOk(s: State, at: Progress) {
    match at
    case Chosen(batch) =>
      batch.seed in batch.ids && Distinct(batch.ids) && forall i :: 0 <= i < |batch.ids| ==> batch.ids[i] !in s.claims
    case Claiming(batchId, batch, done) =>
      && batch.seed in batch.ids && Distinct(batch.ids) && done <= |batch.ids| && batchId < s.nextBatch
      && (forall i :: 0 <= i < done ==> batch.ids[i] in s.claims && s.claims[batch.ids[i]] == batchId)
      && (forall i :: done <= i < |batch.ids| ==> batch.ids[i] !in s.claims)
      && (forall r :: r in s.runs ==> r.batchId != batchId)
    case _ => true
  }

  predicate RunOk(s: State, r: Run) {
    && r.batchId < s.nextBatch && r.batch.seed in r.batch.ids && Distinct(r.batch.ids)
    && forall i :: 0 <= i < |r.batch.ids| ==> r.batch.ids[i] in s.claims && s.claims[r.batch.ids[i]] == r.batchId
  }

  ghost predicate Inv(s: State) {
    && (forall p :: p in s.pollers && s.pollers[p].Holding() ==> s.lock && HolderOk(s, s.pollers[p]))
    && (forall p, q :: p in s.pollers && q in s.pollers && s.pollers[p].Holding() && s.pollers[q].Holding() ==> p == q)
    && (forall r :: r in s.runs ==> RunOk(s, r))
    && (forall i, j :: 0 <= i < j < |s.runs| ==> s.runs[i].batchId != s.runs[j].batchId)
  }

  lemma {:induction false} ClaimKeepsInv(s: State, p: Poller, s': State)
    requires Inv(s) && Step(s, p, ClaimNext, s')
    ensures Inv(s')
    ensures s.pollers[p].batch.ids[s.pollers[p].done] !in s.claims
  {
    var at := s.pollers[p];
    assert HolderOk(s, at);
    var id := at.batch.ids[at.done];
    assert id !in s.claims;
    forall r | r in s'.runs
      ensures RunOk(s', r)
    {
      assert RunOk(s, r);
    }
    assert HolderOk(s', s'.pollers[p]);
  }

  lemma {:induction false} OpenKeepsInv(s: State, p: Poller, s': State)
    requires Inv(s) && Step(s, p, OpenBatch, s')
    ensures Inv(s')
  {
    assert HolderOk(s, s.pollers[p]);
    forall r | r in s'.runs
      ensures RunOk(s', r) && r.batchId != s.nextBatch
    {
      assert RunOk(s, r);
    }
    assert HolderOk(s', s'.pollers[p]);
  }

  lemma {:induction false} StartKeepsInv(s: State, p: Poller, s': State)
    requires Inv(s) && Step(s, p, StartCodex, s')
    ensures Inv(s')
  {
    assert HolderOk(s, s.pollers[p]);
    forall r | r in s'.runs
      ensures RunOk(s', r)
    {
      if r in s.runs {
        assert RunOk(s, r);
      }
    }
  }

  lemma {:induction false} ChooseKeepsInv(s: State, p: Poller, a: Action, s': State)
    requires Inv(s) && a.Choose? && Step(s, p, a, s')
    ensures Inv(s')
  {
    forall i | 0 <= i < |a.batch.ids|
      ensures a.batch.ids[i] !in s.claims
    {
      assert Eligible(a.index, s.claims.Keys, a.options, a.batch.ids[i]);
      assert a.index.messages[a.batch.ids[i]].messageId == a.batch.ids[i];
    }
    RunsStay(s, s');
    assert HolderOk(s', s'.pollers[p]);
  }

  lemma {:induction false} RunsStay(s: State, s': State)
    requires s'.runs == s.runs && s'.claims == s.claims && s'.nextBatch == s.nextBatch
    requires forall r :: r in s.runs ==> RunOk(s, r)
    ensures forall r :: r in s'.runs ==> RunOk(s', r)
  {
    forall r | r in s'.runs
      ensures RunOk(s', r)
    {
      assert RunOk(s, r);
    }
  }

  lemma {:induction false} StepKeepsInv(s: State, p: Poller, a: Action, s': State)
    requires Inv(s) && Step(s, p, a, s')
    ensures Inv(s')
  {
    match a {
      case Choose(_, _, _) => ChooseKeepsInv(s, p, a, s');
      case OpenBatch => OpenKeepsInv(s, p, s');
      case ClaimNext => ClaimKeepsInv(s, p, s');
      case StartCodex => StartKeepsInv(s, p, s');
      case _ =>
        RunsStay(s, s');
    }
  }

  lemma {:induction false} RunsKeepInv(run: seq<State>, i: nat)
    requires IsRun(run) && i < |run|
    ensures Inv(run[i])
  {
    if i > 0 {
      RunsKeepInv(run, i - 1);
      assert Next(run[i - 1], run[i - 1 + 1]);
      var p, a :| Step(run[i - 1], p, a, run[i]);
      StepKeepsInv(run[i - 1], p, a, run[i]);
    }
  }

  // ----- theorems over every interleaving -----

  /** At most one poller is ever past the lock. */
  lemma {:induction false} LockExcludes(run: seq<State>, i: nat, p: Poller, q: Poller)
    requires IsRun(run) && i < |run|
    requires p in run[i].pollers && q in run[i].pollers && run[i].pollers[p].Holding() && run[i].pollers[q].Holding()
    ensures p == q && run[i].lock
  {
    RunsKeepInv(run, i);
  }

  lemma {:induction false} ClaimsLast(run: seq<State>, i: nat, j: nat, id: string)
    requires IsRun(run) && i <= j < |run| && id in run[i].claims
    ensures id in run[j].claims && run[j].claims[id] == run[i].claims[id]
  {
    if i < j {
      ClaimsLast(run, i, j - 1, id);
      assert Next(run[j - 1], run[j - 1 + 1]);
      var p, a :| Step(run[j - 1], p, a, run[j]);
    }
  }

  /** A message that was handed to Codex is handed to it in one batch only, ever. */
  lemma {:induction false} NoMessageRunsTwice(run: seq<State>, i: nat, m: nat, n: nat, id: string)
    requires IsRun(run) && i < |run| && m < n < |run[i].runs|
    requires id in run[i].runs[m].batch.ids
    ensures id !in run[i].runs[n].batch.ids
  {
    RunsKeepInv(run, i);
    var s := run[i];
    assert s.runs[m] in s.runs && s.runs[n] in s.runs;
    assert RunOk(s, s.runs[m]) && RunOk(s, s.runs[n]);
  }

  /** The primary key never has to refuse: the lock keeps what was unclaimed when chosen unclaimed. */
  lemma {:induction false} ClaimsNeverConflict(run: seq<State>, i: nat, p: Poller)
    requires IsRun(run) && i + 1 < |run| && Step(run[i], p, ClaimNext, run[i + 1])
    ensures run[i].pollers[p].batch.ids[run[i].pollers[p].done] !in run[i].claims
    ensures run[i + 1].claims.Keys == run[i].claims.Keys + {run[i].pollers[p].batch.ids[run[i].pollers[p].done]}
  {
    RunsKeepInv(run, i);
    ClaimKeepsInv(run[i], p, run[i + 1]);
  }

  /** Step i of the run is the one in which `p` chooses its batch. */
  ghost predicate ChoosesAt(run: seq<State>, i: nat, p: Poller, a: Action)
    requires i + 1 < |run|
  {
    a.Choose? && Step(run[i], p, a, run[i + 1])
  }

  predicate HasBatch(s: State, p: Poller, batch: Batch) {
    && p in s.pollers
    && (s.pollers[p].Chosen? || s.pollers[p].Claiming? || s.pollers[p].Running?)
    && s.pollers[p].batch == batch
  }

  lemma {:induction false} StepGivesBatch(s: State, q: Poller, a: Action, s': State, p: Poller, batch: Batch)
    requires Step(s, q, a, s') && HasBatch(s', p, batch)
    ensures HasBatch(s, p, batch) || (q == p && a.Choose? && a.batch == batch)
  {
  }

  /** A poller with a batch chose it in an earlier step. */
  lemma {:induction false} BatchWasChosen(run: seq<State>, j: nat, p: Poller, batch: Batch)
    requires IsRun(run) && j < |run| && HasBatch(run[j], p, batch)
    ensures exists i, a :: 0 <= i < j && ChoosesAt(run, i, p, a) && a.batch == batch
  {
    assert j > 0;
    assert Next(run[j - 1], run[j - 1 + 1]);
    var q, a :| Step(run[j - 1], q, a, run[j]);
    StepGivesBatch(run[j - 1], q, a, run[j], p, batch);
    if HasBatch(run[j - 1], p, batch) {
      BatchWasChosen(run, j - 1, p, batch);
    } else {
      assert ChoosesAt(run, j - 1, p, a);
    }
  }

  /** Nothing of a batch chosen at i was claimed then, and all of it is at j. */
  ghost predicate FreshlyClaimed(run: seq<State>, i: nat, j: nat, batch: Batch)
    requires i < |run| && j < |run|
  {
    && batch.seed in batch.ids
    && (forall id :: id in batch.ids ==> id !in run[i].claims && id in run[j].claims)
    && run[i].claims.Keys < run[j].claims.Keys
  }

  /**
   Every start of Codex is for a batch of trusted mail in the folder that the
   poll chose in an earlier step, when none of it was claimed, and that is
   claimed in full by then.
   */
  lemma {:induction false} CodexRunsOnlyOnFreshClaims(run: seq<State>, j: nat, p: Poller)
    requires IsRun(run) && j + 1 < |run| && Step(run[j], p, StartCodex, run[j + 1])
    ensures exists i, a :: 0 <= i < j && ChoosesAt(run, i, p, a) &&
              a.batch == run[j].pollers[p].batch && FreshlyClaimed(run, i, j, a.batch) &&
              forall id :: id in a.batch.ids ==>
                && id in a.index.messages && a.options.trusted(a.index.messages[id].fromAddr)
                && a.index.messages[id].localRole == a.options.folder
  {
    BatchWasChosen(run, j, p, run[j].pollers[p].batch);
    var i, a :| 0 <= i < j && ChoosesAt(run, i, p, a) && a.batch == run[j].pollers[p].batch;
    ChosenIsFresh(run, i, j, p, a);
    NextBatchIsTrusted(a.index, run[i].claims.Keys, a.options, a.batch);
  }

  lemma {:induction false} ChosenIsFresh(run: seq<State>, i: nat, j: nat, p: Poller, a: Action)
    requires IsRun(run) && i < j && j + 1 < |run| && ChoosesAt(run, i, p, a)
    requires Step(run[j], p, StartCodex, run[j + 1]) && run[j].pollers[p].batch == a.batch
    ensures FreshlyClaimed(run, i, j, a.batch)
  {
    RunsKeepInv(run, j);
    assert HolderOk(run[j], run[j].pollers[p]);
    forall id | id in a.batch.ids
      ensures id !in run[i].claims && id in run[j].claims
    {
      assert Eligible(a.index, run[i].claims.Keys, a.options, id);
      assert a.index.messages[id].messageId == id;
    }
    forall id | id in run[i].claims
      ensures id in run[j].claims
    {
      ClaimsLast(run, i, j, id);
    }
  }

  // ----- what a claim stands for -----

  predicate HasRun(s: State, batchId: BatchId) {
    exists i :: 0 <= i < |s.runs| && s.runs[i].batchId == batchId
  }

  predicate ClaimingFor(s: State, p: Poller, batchId: BatchId) {
    p in s.pollers && s.pollers[p].Claiming? && s.pollers[p].batchId == batchId
  }

  /** Every claim was followed by a run of its batch, or its poll is still claiming. */
  ghost predicate ClaimsBacked(s: State) {
    forall id :: id in s.claims ==> HasRun(s, s.claims[id]) || exists p :: ClaimingFor(s, p, s.claims[id])
  }

  /** The poll of `p` stops after its first claim and before it starts Codex. */
  predicate StopsClaiming(s: State, s': State, p: Poller) {
    && p in s.pollers && s.pollers[p].Claiming? && s.pollers[p].done > 0
    && !(p in s'.pollers && (s'.pollers[p].Claiming? || s'.pollers[p].Running?))
  }

  ghost predicate SomePollStops(s: State, s': State) {
    exists p :: StopsClaiming(s, s', p)
  }

  ghost predicate KeepsClaiming(run: seq<State>) {
    forall i :: 0 <= i < |run| - 1 ==> !SomePollStops(run[i], run[i + 1])
  }

  lemma {:induction false} RunsLast(s: State, p: Poller, a: Action, s': State, batchId: BatchId)
    requires Step(s, p, a, s') && HasRun(s, batchId)
    ensures HasRun(s', batchId)
  {
    var i :| 0 <= i < |s.runs| && s.runs[i].batchId == batchId;
    assert s'.runs[i] == s.runs[i];
  }

  /** A poll that claims, or has begun to claim, still does after a step, or has started Codex for its batch. */
  lemma {:induction false} ClaimingGoesOn(s: State, q: Poller, a: Action, s': State, p: Poller, batchId: BatchId)
    requires Inv(s) && Step(s, q, a, s') && ClaimingFor(s, p, batchId)
    requires !StopsClaiming(s, s', p) && s.pollers[p].done > 0
    ensures ClaimingFor(s', p, batchId) || HasRun(s', batchId)
  {
    if p == q && a.StartCodex? {
      assert s'.runs[|s.runs|].batchId == batchId;
    }
  }

  predicate NoneClaimed(s: State, batchId: BatchId) {
    forall id :: id in s.claims ==> s.claims[id] != batchId
  }

  /** A batch whose poll has claimed nothing yet has no claims. */
  ghost predicate BatchIdsFresh(s: State) {
    && (forall id :: id in s.claims ==> s.claims[id] < s.nextBatch)
    && (forall p :: p in s.pollers && s.pollers[p].Claiming? && s.pollers[p].done == 0 ==>
          NoneClaimed(s, s.pollers[p].batchId))
  }

  lemma {:induction false} ClaimingHasClaimed(s: State, p: Poller, id: string)
    requires BatchIdsFresh(s) && id in s.claims && ClaimingFor(s, p, s.claims[id])
    ensures s.pollers[p].done > 0
  {
  }

  lemma {:induction false} StepKeepsBatchIdsFresh(s: State, p: Poller, a: Action, s': State)
    requires Inv(s) && BatchIdsFresh(s) && Step(s, p, a, s')
    ensures BatchIdsFresh(s')
  {
    if a.ClaimNext? {
      assert HolderOk(s, s.pollers[p]);
    }
  }

  lemma {:induction false} StepKeepsClaimsBacked(s: State, q: Poller, a: Action, s': State)
    requires Inv(s) && BatchIdsFresh(s) && ClaimsBacked(s) && Step(s, q, a, s')
    requires !SomePollStops(s, s')
    ensures ClaimsBacked(s')
  {
    forall id | id in s'.claims
      ensures HasRun(s', s'.claims[id]) || exists p :: ClaimingFor(s', p, s'.claims[id])
    {
      if id !in s.claims {
        assert ClaimingFor(s', q, s'.claims[id]);
      } else {
        OldClaimStaysBacked(s, q, a, s', id);
      }
    }
  }

  lemma {:induction false} OldClaimStaysBacked(s: State, q: Poller, a: Action, s': State, id: string)
    requires Inv(s) && BatchIdsFresh(s) && ClaimsBacked(s) && Step(s, q, a, s') && id in s.claims
    requires !SomePollStops(s, s')
    ensures id in s'.claims && s'.claims[id] == s.claims[id]
    ensures HasRun(s', s'.claims[id]) || exists p :: ClaimingFor(s', p, s'.claims[id])
  {
    var batchId := s.claims[id];
    if HasRun(s, batchId) {
      RunsLast(s, q, a, s', batchId);
    } else {
      var p :| ClaimingFor(s, p, batchId);
      ClaimingHasClaimed(s, p, id);
      ClaimingGoesOn(s, q, a, s', p, batchId);
    }
  }

  /** A poll that stops after a claim leaves that claim without a run and without a poll that is claiming. */
  lemma {:induction false} StopLeavesUnbacked(s: State, q: Poller, a: Action, s': State, p: Poller)
    requires Inv(s) && Step(s, q, a, s') && StopsClaiming(s, s', p)
    ensures !ClaimsBacked(s')
  {
    var at := s.pollers[p];
    assert HolderOk(s, at);
    var id := at.batch.ids[0];
    assert p == q && s'.claims == s.claims && s'.runs == s.runs;
    assert s'.claims[id] == at.batchId;
    assert forall i :: 0 <= i < |s'.runs| ==> s'.runs[i] in s.runs;
    forall other
      ensures !ClaimingFor(s', other, at.batchId)
    {
      assert other != p && other in s.pollers ==> !s.pollers[other].Holding();
    }
  }

  lemma {:induction false} FreshAlongRun(run: seq<State>, i: nat)
    requires IsRun(run) && i < |run|
    ensures Inv(run[i]) && BatchIdsFresh(run[i])
  {
    RunsKeepInv(run, i);
    if i > 0 {
      FreshAlongRun(run, i - 1);
      assert Next(run[i - 1], run[i - 1 + 1]);
      var p, a :| Step(run[i - 1], p, a, run[i]);
      StepKeepsBatchIdsFresh(run[i - 1], p, a, run[i]);
    }
  }

  lemma {:induction false} BackedAlongRun(run: seq<State>, i: nat)
    requires IsRun(run) && i < |run| && KeepsClaiming(run)
    ensures ClaimsBacked(run[i])
  {
    if i > 0 {
      BackedAlongRun(run, i - 1);
      FreshAlongRun(run, i - 1);
      assert Next(run[i - 1], run[i - 1 + 1]);
      var p, a :| Step(run[i - 1], p, a, run[i]);
      assert !SomePollStops(run[i - 1], run[i - 1 + 1]);
      StepKeepsClaimsBacked(run[i - 1], p, a, run[i]);
    }
  }

  /**
   Throughout a run every claim has a run of its batch, or a poll that is still
   claiming it, if and only if no poll stops between its first claim and Codex.
   */
  lemma {:induction false} ClaimsBackedIffNoPollStops(run: seq<State>)
    requires IsRun(run)
    ensures (forall i :: 0 <= i < |run| ==> ClaimsBacked(run[i])) <==> KeepsClaiming(run)
  {
    if KeepsClaiming(run) {
      forall i | 0 <= i < |run|
        ensures ClaimsBacked(run[i])
      {
        BackedAlongRun(run, i);
      }
    } else {
      var i :| 0 <= i < |run| - 1 && SomePollStops(run[i], run[i + 1]);
      var p :| StopsClaiming(run[i], run[i + 1], p);
      RunsKeepInv(run, i);
      assert Next(run[i], run[i + 1]);
      var q, a :| Step(run[i], q, a, run[i + 1]);
      StopLeavesUnbacked(run[i], q, a, run[i + 1], p);
    }
  }

  /** A batch whose poll is gone without a run. */
  ghost predicate Lost(s: State, batchId: BatchId) {
    batchId < s.nextBatch && !HasRun(s, batchId) && forall p :: !ClaimingFor(s, p, batchId)
  }

  lemma {:induction false} LostStays(s: State, p: Poller, a: Action, s': State, batchId: BatchId)
    requires Step(s, p, a, s') && Lost(s, batchId)
    ensures Lost(s', batchId)
  {
    if a.StartCodex? {
      assert !ClaimingFor(s, p, batchId);
    }
    forall i | 0 <= i < |s'.runs|
      ensures s'.runs[i].batchId != batchId
    {
      if i < |s.runs| {
        assert s'.runs[i] == s.runs[i];
      }
    }
    forall q
      ensures !ClaimingFor(s', q, batchId)
    {
      assert !ClaimingFor(s, q, batchId);
    }
  }

  lemma {:induction false} LostForever(run: seq<State>, i: nat, j: nat, batchId: BatchId)
    requires IsRun(run) && i <= j < |run| && Lost(run[i], batchId)
    ensures Lost(run[j], batchId)
  {
    if i < j {
      LostForever(run, i, j - 1, batchId);
      assert Next(run[j - 1], run[j - 1 + 1]);
      var p, a :| Step(run[j - 1], p, a, run[j]);
      LostStays(run[j - 1], p, a, run[j], batchId);
    }
  }

  /** A message claimed for such a batch is never handed to Codex, by any later poll. */
  lemma {:induction false} LostClaimNeverRuns(run: seq<State>, i: nat, j: nat, id: string, m: nat)
    requires IsRun(run) && i <= j < |run| && id in run[i].claims && Lost(run[i], run[i].claims[id])
    requires m < |run[j].runs|
    ensures id !in run[j].runs[m].batch.ids
  {
    LostForever(run, i, j, run[i].claims[id]);
    ClaimsLast(run, i, j, id);
    RunsKeepInv(run, j);
    assert run[j].runs[m] in run[j].runs;
    assert RunOk(run[j], run[j].runs[m]);
  }

  // ----- a message that is claimed and never run -----

  const LETTER := Threads.IndexedMessage("m", "", None, "inbox", "")
  const LETTERS := Threads.Index(map["m" := LETTER], map[])
  const LETTER_BATCH := Batch("m", ["m"])

  function Everyone(): Options {
    Options("inbox", (from: string) => true)
  }

  function Polled(lock: bool, progress: Progress, nextBatch: BatchId, claims: map<string, BatchId>): State {
    State(lock, map[0 := progress], nextBatch, claims, [])
  }

  lemma {:induction false} LetterIsNextBatch()
    ensures LETTERS.Valid() && IsNextBatch(LETTERS, {}, Everyone(), LETTER_BATCH)
  {
    assert Eligible(LETTERS, {}, Everyone(), "m");
    Threads.ConnectedReflexive(LETTERS.links, "m");
    assert forall id :: Eligible(LETTERS, {}, Everyone(), id) ==> id == "m";
  }

  lemma {:induction false} PollBegins()
    ensures Next(State(false, map[], 0, map[], []), Polled(false, Ready, 0, map[]))
    ensures Next(Polled(false, Ready, 0, map[]), Polled(true, Locked, 0, map[]))
    ensures Next(Polled(true, Locked, 0, map[]), Polled(true, Chosen(LETTER_BATCH), 0, map[]))
  {
    assert Step(State(false, map[], 0, map[], []), 0, Arrive, Polled(false, Ready, 0, map[]));
    assert Step(Polled(false, Ready, 0, map[]), 0, Acquire, Polled(true, Locked, 0, map[]));
    LetterIsNextBatch();
    var locked, chosen := Polled(true, Locked, 0, map[]), Polled(true, Chosen(LETTER_BATCH), 0, map[]);
    assert locked.claims.Keys == {};
    assert Step(locked, 0, Choose(LETTERS, Everyone(), LETTER_BATCH), chosen);
  }

  lemma {:induction false} PollStops()
    ensures Next(Polled(true, Chosen(LETTER_BATCH), 0, map[]), Polled(true, Claiming(0, LETTER_BATCH, 0), 1, map[]))
    ensures Next(Polled(true, Claiming(0, LETTER_BATCH, 0), 1, map[]),
                 Polled(true, Claiming(0, LETTER_BATCH, 1), 1, map["m" := 0]))
    ensures Next(Polled(true, Claiming(0, LETTER_BATCH, 1), 1, map["m" := 0]),
                 Polled(false, Returned, 1, map["m" := 0]))
  {
    assert Step(Polled(true, Chosen(LETTER_BATCH), 0, map[]), 0, OpenBatch,
                Polled(true, Claiming(0, LETTER_BATCH, 0), 1, map[]));
    assert Step(Polled(true, Claiming(0, LETTER_BATCH, 0), 1, map[]), 0, ClaimNext,
                Polled(true, Claiming(0, LETTER_BATCH, 1), 1, map["m" := 0]));
    assert Step(Polled(true, Claiming(0, LETTER_BATCH, 1), 1, map["m" := 0]), 0, GiveUp,
                Polled(false, Returned, 1, map["m" := 0]));
  }

  /** A poll fails after its only claim and gives the lock back: the message is claimed for a lost batch. */
  lemma {:induction false} ClaimedMailMayNeverRun()
    ensures exists run: seq<State> ::
              && IsRun(run) && |run| == 7 && !run[6].lock
              && "m" in run[6].claims && Lost(run[6], run[6].claims["m"])
  {
    PollBegins();
    PollStops();
    var run := [
      State(false, map[], 0, map[], []), Polled(false, Ready, 0, map[]), Polled(true, Locked, 0, map[]),
      Polled(true, Chosen(LETTER_BATCH), 0, map[]), Polled(true, Claiming(0, LETTER_BATCH, 0), 1, map[]),
      Polled(true, Claiming(0, LETTER_BATCH, 1), 1, map["m" := 0]), Polled(false, Returned, 1, map["m" := 0])];
    assert forall i :: 0 <= i < |run| - 1 ==> Next(run[i], run[i + 1]);
    assert Lost(run[6], 0);
  }

  lemma {:induction false} PollProcesses()
    ensures Next(Polled(true, Claiming(0, LETTER_BATCH, 1), 1, map["m" := 0]),
                 Polled(true, Running(0, LETTER_BATCH), 1, map["m" := 0]).(runs := [Run(0, LETTER_BATCH)]))
    ensures Next(Polled(true, Running(0, LETTER_BATCH), 1, map["m" := 0]).(runs := [Run(0, LETTER_BATCH)]),
                 Polled(false, Returned, 1, map["m" := 0]).(runs := [Run(0, LETTER_BATCH)]))
  {
    var claimed := Polled(true, Claiming(0, LETTER_BATCH, 1), 1, map["m" := 0]);
    var running := Polled(true, Running(0, LETTER_BATCH), 1, map["m" := 0]).(runs := [Run(0, LETTER_BATCH)]);
    var done := Polled(false, Returned, 1, map["m" := 0]).(runs := [Run(0, LETTER_BATCH)]);
    assert claimed.runs + [Run(0, LETTER_BATCH)] == running.runs;
    assert Step(claimed, 0, StartCodex, running);
    assert Step(running, 0, Finish, done);
  }

  /** A poll that nothing interrupts hands the message to Codex and gives the lock back. */
  lemma {:induction false} ClaimedMailCanRun()
    ensures exists run: seq<State> ::
              && IsRun(run) && |run| == 8 && !run[7].lock
              && run[7].claims == map["m" := 0] && run[7].runs == [Run(0, LETTER_BATCH)]
  {
    PollBegins();
    PollStops();
    PollProcesses();
    var run := [
      State(false, map[], 0, map[], []), Polled(false, Ready, 0, map[]), Polled(true, Locked, 0, map[]),
      Polled(true, Chosen(LETTER_BATCH), 0, map[]), Polled(true, Claiming(0, LETTER_BATCH, 0), 1, map[]),
      Polled(true, Claiming(0, LETTER_BATCH, 1), 1, map["m" := 0]),
      Polled(true, Running(0, LETTER_BATCH), 1, map["m" := 0]).(runs := [Run(0, LETTER_BATCH)]),
      Polled(false, Returned, 1, map["m" := 0]).(runs := [Run(0, LETTER_BATCH)])];
    assert forall i :: 0 <= i < |run| - 1 ==> Next(run[i], run[i + 1]);
  }

  /** A poller may die with the lock. */
  lemma {:induction false} PollerMayDie()
    ensures exists run: seq<State> :: IsRun(run) && |run| == 4 && run[3] == Polled(true, Dead, 0, map[])
  {
    PollBegins();
    assert Step(Polled(true, Locked, 0, map[]), 0, Die, Polled(true, Dead, 0, map[]));
    var run := [
      State(false, map[], 0, map[], []), Polled(false, Ready, 0, map[]), Polled(true, Locked, 0, map[]),
      Polled(true, Dead, 0, map[])];
    assert forall i :: 0 <= i < |run| - 1 ==> Next(run[i], run[i + 1]);
  }

  /** A poller that dies past the lock leaves it behind: nobody claims or runs anything again. */
  lemma {:induction false} DeathHoldsTheLock(run: seq<State>, i: nat, j: nat)
    requires IsRun(run) && i <= j < |run|
    requires run[i].lock && forall p :: p in run[i].pollers ==> !run[i].pollers[p].Holding()
    ensures run[j].lock && run[j].claims == run[i].claims && run[j].runs == run[i].runs
    ensures forall p :: p in run[j].pollers ==> !run[j].pollers[p].Holding()
  {
    if i < j {
      DeathHoldsTheLock(run, i, j - 1);
      assert Next(run[j - 1], run[j - 1 + 1]);
      var p, a :| Step(run[j - 1], p, a, run[j]);
      assert p in run[j - 1].pollers ==> !run[j - 1].pollers[p].Holding();
    }
  }

  // ----- one poll, in place -----

  datatype Outcome = LockedOut | Nothing | DryRun | Processed | Failure | Died

  class Mailbox {
    var lock: bool
    var nextBatch: BatchId
    var claims: map<string, BatchId>
    var runs: seq<Run>

    constructor ()
      ensures !lock && claims == map[] && runs == []
    {
      lock, nextBatch, claims, runs := false, 0, map[], [];
    }

    /**
     `poll`: it may die after any statement. A lock it took stays behind only
     then, or if its process id could not be written into it.
     */
    method Poll(
        index: Threads.Index, options: Options, dryRun: bool, codexSucceeds: bool, uninterrupted: bool)
      returns (outcome: Outcome)
      requires index.Valid()
      modifies this
      ensures old(lock) ==> outcome == LockedOut && unchanged(this)
      ensures !old(lock) && lock ==>
                outcome == Died || (outcome == Failure && claims == old(claims) && runs == old(runs))
      ensures forall id :: id in old(claims) ==> id in claims && claims[id] == old(claims[id])
      ensures runs != old(runs) ==>
                && |runs| == |old(runs)| + 1 && runs[..|old(runs)|] == old(runs)
                && IsNextBatch(index, old(claims).Keys, options, runs[|old(runs)|].batch)
                && (forall id :: id in runs[|old(runs)|].batch.ids ==>
                      id !in old(claims) && id in claims && claims[id] == runs[|old(runs)|].batchId)
                && (forall id :: id in runs[|old(runs)|].batch.ids ==>
                      && id in index.messages && options.trusted(index.messages[id].fromAddr)
                      && index.messages[id].localRole == options.folder)
      ensures dryRun ==> claims == old(claims) && runs == old(runs)
      ensures outcome == Nothing ==> forall id ::
                (&& id in index.messages && options.trusted(index.messages[id].fromAddr)
                 && index.messages[id].localRole == options.folder) ==> id in old(claims)
      ensures uninterrupted && !old(lock) ==> !lock
      ensures uninterrupted && !old(lock) && !dryRun ==>
                if outcome == Nothing then runs == old(runs)
                else |runs| == |old(runs)| + 1 && outcome == if codexSucceeds then Processed else Failure
      ensures uninterrupted && !old(lock) && dryRun ==> outcome == Nothing || outcome == DryRun
    {
      if lock {
        return LockedOut;
      }
      lock := true;
      var unwritten := Fails(uninterrupted);
      if unwritten {
        return Failure;
      }
      var died := Fails(uninterrupted);
      if died {
        return Died;
      }
      var batch := NextBatch(index, claims.Keys, options);
      if batch.None? {
        lock := false;
        return Nothing;
      }
      if dryRun {
        lock := false;
        return DryRun;
      }
      forall id | id in batch.value.ids
        ensures id !in claims
      {
        assert id !in claims.Keys;
      }
      var batchId := nextBatch;
      nextBatch := nextBatch + 1;
      outcome := Claim(batchId, batch.value.ids, uninterrupted);
      if outcome != Processed {
        lock := outcome == Died;
        return;
      }
      var unprompted := Fails(uninterrupted);
      if unprompted {
        lock := false;
        return Failure;
      }
      runs := runs + [Run(batchId, batch.value)];
      died := Fails(uninterrupted);
      if died {
        return Died;
      }
      lock := false;
      var unfinished := Fails(uninterrupted);
      if unfinished || !codexSucceeds {
        outcome := Failure;
      }
    }

    /** The inserts of `claim_batch`, one at a time. */
    method Claim(batchId: BatchId, ids: seq<string>, uninterrupted: bool) returns (outcome: Outcome)
      requires Distinct(ids) && forall id :: id in ids ==> id !in claims
      modifies this`claims
      ensures outcome in {Processed, Failure, Died}
      ensures forall id :: id in old(claims) ==> id in claims && claims[id] == old(claims[id])
      ensures outcome == Processed ==> forall id :: id in ids ==> id in claims && claims[id] == batchId
      ensures forall id :: id in claims && id !in old(claims) ==> id in ids && claims[id] == batchId
      ensures uninterrupted ==> outcome == Processed
    {
      for i := 0 to |ids|
        invariant forall id :: id in old(claims) ==> id in claims && claims[id] == old(claims[id])
        invariant forall k :: 0 <= k < i ==> ids[k] in claims && claims[ids[k]] == batchId
        invariant forall k :: i <= k < |ids| ==> ids[k] !in claims
        invariant forall id :: id in claims && id !in old(claims) ==> id in ids && claims[id] == batchId
      {
        var died := Fails(uninterrupted);
        if died {
          return Died;
        }
        var failed := Fails(uninterrupted);
        if failed {
          return Failure;
        }
        assert ids[i] !in claims;
        claims := claims[ids[i] := batchId];
      }
      return Processed;
    }
  }
}
