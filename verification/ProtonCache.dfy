/**
 The cache of fetched messages beside the event cursor. The server may answer
 differently every time; the cache is what makes the message stored for an id
 the same in every repetition.
 */
module ProtonCache {
  import opened Basics
  import opened ProtonEvents

  /** `cache` holds the files that parse, by id, and `torn` the ids whose file was cut short while it was written. */
  datatype Cached = Cached(state: State, cache: map<string, Full>, torn: set<string>)

  /** The cached message of each id; what it gives for other ids is never used. */
  function FetchOf(cache: map<string, Full>): string -> Full {
    (id: string) => if id in cache then cache[id] else Full("", false, [])
  }

  function Remembered(cache: map<string, Full>, id: string, current: Full): map<string, Full> {
    if id in cache then cache else cache[id := current]
  }

  predicate Writing(s: State) {
    s.control.Applying? && s.control.k < |s.log| && s.control.written < |Writes(s.log[s.control.k])|
  }

  function NextWrite(s: State): Write
    requires Writing(s)
  {
    Writes(s.log[s.control.k])[s.control.written]
  }

  predicate Storing(s: State) {
    Writing(s) && NextWrite(s).Put?
  }

  /**
   The message to be stored is fetched, `current` being what the server would
   say of it now. A torn cache file is an error; a fetch may be cached, or its
   file torn, and its row never written.
   */
  ghost predicate StoreStep(s: Cached, current: Full, s': Cached)
    requires Storing(s.state)
  {
    var id := NextWrite(s.state).id;
    && id !in s.torn
    && (|| (id !in s.cache && s' == s.(torn := s.torn + {id}))
        || (&& s'.torn == s.torn && s'.cache == Remembered(s.cache, id, current)
            && (s'.state == s.state || Step(s.state, WriteNext, s'.state, FetchOf(s'.cache)))))
  }

  ghost predicate CachedStep(s: Cached, a: Action, current: Full, s': Cached) {
    if a.WriteNext? && Storing(s.state) then
      StoreStep(s, current, s')
    else
      s'.cache == s.cache && s'.torn == s.torn && Step(s.state, a, s'.state, FetchOf(s.cache))
  }

  ghost predicate CachedNext(s: Cached, s': Cached) {
    exists a, current :: CachedStep(s, a, current, s')
  }

  ghost predicate IsCachedRun(run: seq<Cached>) {
    && run != [] && run[0].state.cursor == At(0) && run[0].state.control == Idle
    && run[0].cache.Keys !! run[0].torn
    && forall i :: 0 <= i < |run| - 1 ==> CachedNext(run[i], run[i + 1])
  }

  lemma {:induction false} CacheLasts(run: seq<Cached>, i: nat, j: nat)
    requires IsCachedRun(run) && i <= j < |run|
    ensures Extends(run[i].cache, run[j].cache)
  {
    if i < j {
      CacheLasts(run, i, j - 1);
      assert CachedNext(run[j - 1], run[j - 1 + 1]);
    }
  }

  lemma {:induction false} CacheReachesEnd(run: seq<Cached>, i: nat)
    requires IsCachedRun(run) && i < |run|
    ensures Extends(run[i].cache, run[|run| - 1].cache)
  {
    CacheLasts(run, i, |run| - 1);
  }

  /** A step on what is cached is the same step on any later cache. */
  lemma {:induction false} StepOnLaterCache(s: Cached, a: Action, current: Full, s': Cached, cache: map<string, Full>)
    requires CachedStep(s, a, current, s') && Extends(s'.cache, cache)
    ensures Next(s.state, s'.state, FetchOf(cache)) || s'.state == s.state
  {
    if s'.state != s.state {
      if a.WriteNext? {
        var w := NextWrite(s.state);
        assert Apply(s.state.rows, w, FetchOf(s'.cache)) == Apply(s.state.rows, w, FetchOf(cache));
      }
      assert Step(s.state, a, s'.state, FetchOf(cache));
    }
  }

  function States(run: seq<Cached>): (states: seq<State>)
    ensures |states| == |run| && forall i :: 0 <= i < |run| ==> states[i] == run[i].state
  {
    seq(|run|, i requires 0 <= i < |run| => run[i].state)
  }

  /**
   A run with the cache, whatever the server said at each fetch, is a run with
   one fixed message per id: the one its last cache holds, which is the one
   fetched first.
   */
  lemma {:induction false} CachedRunHasFixedMessages(run: seq<Cached>)
    requires IsCachedRun(run)
    ensures IsRun(States(run), FetchOf(run[|run| - 1].cache))
  {
    var states, last := States(run), run[|run| - 1].cache;
    forall i | 0 <= i < |states| - 1
      ensures Next(states[i], states[i + 1], FetchOf(last))
    {
      assert CachedNext(run[i], run[i + 1]);
      var a, current :| CachedStep(run[i], a, current, run[i + 1]);
      CacheLasts(run, i + 1, |run| - 1);
      StepOnLaterCache(run[i], a, current, run[i + 1], last);
      if states[i + 1] == states[i] {
        assert Step(states[i], Arrive([]), states[i + 1], FetchOf(last)) by {
          assert states[i].log + [] == states[i].log;
        }
      }
    }
  }

  /** So a cursor that has caught up stands for the crash-free rows on the messages first fetched. */
  lemma {:induction false} CachedCaughtUpIsCrashFree(run: seq<Cached>)
    requires IsCachedRun(run)
    requires run[|run| - 1].state.cursor == At(|run[|run| - 1].state.log|)
    ensures
      var s := run[|run| - 1];
      s.state.rows == Prefix(run[0].state.rows, s.state.log, |s.state.log|, FetchOf(s.cache))
  {
    CachedRunHasFixedMessages(run);
    CaughtUpEqualsCrashFree(States(run), |run| - 1, FetchOf(run[|run| - 1].cache));
  }

  // ----- what an update leaves -----

  predicate Stores(writes: seq<Write>, id: string) {
    exists w :: w in writes && w == Put(id)
  }

  lemma {:induction false} DeletesStoreNothing(messages: seq<MessageEvent>, id: string)
    ensures Put(id) !in Deletes(messages)
  {
    if messages != [] {
      DeletesStoreNothing(messages[1..], id);
    }
  }

  /** An event that stores a message leaves it live, as it was fetched. */
  lemma {:induction false} StoredRow(rows: Rows, event: Event, id: string, fetch: string -> Full)
    requires Stores(Writes(event), id)
    ensures Look(ApplyAll(rows, Writes(event), fetch), id) == Some(Row(fetch(id), false))
  {
    match event {
      case Refresh(listing) =>
        var i :| 0 <= i < |Puts(listing)| && Puts(listing)[i] == Put(id);
        assert listing[i] in listing;
        LookAfterAll(rows, Puts(listing), id, fetch);
        EffectOfPuts(Look(rows, id), listing, id, fetch);
      case Changes(messages) =>
        DeletesStoreNothing(messages, id);
        var ids := SyncIds(messages);
        assert Put(id) in Puts(ids);
        var i :| 0 <= i < |Puts(ids)| && Puts(ids)[i] == Put(id);
        assert ids[i] in ids;
        SyncIdsExact(messages, id);
        EventRow(rows, messages, id, fetch);
    }
  }

  lemma {:induction false} UntouchedRow(rows: Rows, event: Event, id: string, fetch: string -> Full)
    requires !Touches(event, id)
    ensures Look(ApplyAll(rows, Writes(event), fetch), id) == Look(rows, id)
  {
    LookAfterAll(rows, Writes(event), id, fetch);
    NoEffect(Look(rows, id), Writes(event), id, fetch);
  }

  lemma {:induction false} NoEffect(row: Option<Row>, writes: seq<Write>, id: string, fetch: string -> Full)
    requires forall i :: 0 <= i < |writes| ==> writes[i].id != id
    ensures EffectAll(row, writes, id, fetch) == row
    decreases |writes|
  {
    if writes != [] {
      NoEffect(row, writes[1..], id, fetch);
    }
  }

  ghost function StoresId(id: string): Event -> bool {
    (event: Event) => Stores(Writes(event), id)
  }

  ghost function Leaves(id: string): Event -> bool {
    (event: Event) => !Touches(event, id)
  }

  /** Event k stores the message, and no later one touches it. */
  ghost predicate LastStored(log: seq<Event>, k: nat, id: string) {
    k < |log| && StoresId(id)(log[k]) && AllOf(log[k + 1..], Leaves(id))
  }

  // One event after another, whatever an event does.

  function Fold(base: Rows, log: seq<Event>, step: (Rows, Event) -> Rows): Rows {
    if log == [] then base else step(Fold(base, log[..|log| - 1], step), log[|log| - 1])
  }

  lemma {:induction false} FoldKeeps(
      base: Rows, log: seq<Event>, step: (Rows, Event) -> Rows, good: Rows -> bool, leaves: Event -> bool)
    requires good(base) && AllOf(log, leaves)
    requires forall rows, e :: good(rows) && leaves(e) ==> good(step(rows, e))
    ensures good(Fold(base, log, step))
  {
    if log != [] {
      FoldKeeps(base, log[..|log| - 1], step, good, leaves);
      assert log[|log| - 1] in log;
    }
  }

  lemma {:induction false} FoldSplits(base: Rows, a: seq<Event>, b: seq<Event>, step: (Rows, Event) -> Rows)
    ensures Fold(base, a + b, step) == Fold(Fold(base, a, step), b, step)
  {
    if b == [] {
      assert a + b == a;
    } else {
      assert (a + b)[..|a + b| - 1] == a + b[..|b| - 1];
      FoldSplits(base, a, b[..|b| - 1], step);
    }
  }

  /** What an event establishes and every later one leaves alone holds at the end. */
  lemma {:induction false} FoldLast(
      base: Rows, log: seq<Event>, k: nat, step: (Rows, Event) -> Rows, good: Rows -> bool, leaves: Event -> bool)
    requires k < |log| && AllOf(log[k + 1..], leaves)
    requires forall rows :: good(step(rows, log[k]))
    requires forall rows, e :: good(rows) && leaves(e) ==> good(step(rows, e))
    ensures good(Fold(base, log, step))
  {
    var upTo := log[..k + 1];
    assert upTo[..|upTo| - 1] == log[..k] && upTo[|upTo| - 1] == log[k];
    assert log == upTo + log[k + 1..];
    FoldSplits(base, upTo, log[k + 1..], step);
    FoldKeeps(Fold(base, upTo, step), log[k + 1..], step, good, leaves);
  }

  function ApplyEventWith(fetch: string -> Full): (Rows, Event) -> Rows {
    (rows: Rows, event: Event) => ApplyAll(rows, Writes(event), fetch)
  }

  /** Any sequence of rows that follows `step` along the log is the fold. */
  lemma {:induction false} FollowsFold(
      base: Rows, log: seq<Event>, n: nat, step: (Rows, Event) -> Rows, rowsAt: nat -> Rows)
    requires n <= |log| && rowsAt(0) == base
    requires forall i: nat :: i < |log| ==> rowsAt(i + 1) == step(rowsAt(i), log[i])
    ensures rowsAt(n) == Fold(base, log[..n], step)
  {
    if n > 0 {
      FollowsFold(base, log, n - 1, step, rowsAt);
      assert log[..n][..n - 1] == log[..n - 1];
      assert rowsAt(n - 1 + 1) == step(rowsAt(n - 1), log[n - 1]);
    }
  }

  function PrefixAt(base: Rows, log: seq<Event>, fetch: string -> Full): nat -> Rows {
    (n: nat) => if n <= |log| then Prefix(base, log, n, fetch) else base
  }

  lemma {:induction false} PrefixStep(base: Rows, log: seq<Event>, fetch: string -> Full, i: nat)
    requires i < |log|
    ensures PrefixAt(base, log, fetch)(i + 1) == ApplyEventWith(fetch)(PrefixAt(base, log, fetch)(i), log[i])
  {
    LastApplied(base, log, i + 1, fetch);
  }

  lemma {:induction false} PrefixFollows(base: Rows, log: seq<Event>, fetch: string -> Full)
    ensures PrefixAt(base, log, fetch)(0) == base
    ensures forall i: nat :: i < |log| ==>
              PrefixAt(base, log, fetch)(i + 1) == ApplyEventWith(fetch)(PrefixAt(base, log, fetch)(i), log[i])
  {
    forall i: nat | i < |log|
      ensures PrefixAt(base, log, fetch)(i + 1) == ApplyEventWith(fetch)(PrefixAt(base, log, fetch)(i), log[i])
    {
      PrefixStep(base, log, fetch, i);
    }
  }

  lemma {:induction false} PrefixIsFold(base: Rows, log: seq<Event>, n: nat, fetch: string -> Full)
    requires n <= |log|
    ensures PrefixAt(base, log, fetch)(n) == Fold(base, log[..n], ApplyEventWith(fetch))
  {
    PrefixFollows(base, log, fetch);
    FollowsFold(base, log, n, ApplyEventWith(fetch), PrefixAt(base, log, fetch));
  }

  lemma {:induction false} LastApplied(base: Rows, log: seq<Event>, n: nat, fetch: string -> Full)
    requires 0 < n <= |log|
    ensures Prefix(base, log, n, fetch) == ApplyEventWith(fetch)(Prefix(base, log, n - 1, fetch), log[n - 1])
  {
  }

  function Shows(id: string, row: Row): Rows -> bool {
    (rows: Rows) => Look(rows, id) == Some(row)
  }

  lemma {:induction false} LeavesShown(id: string, row: Row, fetch: string -> Full)
    ensures forall rows, e :: Shows(id, row)(rows) && Leaves(id)(e) ==> Shows(id, row)(ApplyEventWith(fetch)(rows, e))
  {
    forall rows, e | Shows(id, row)(rows) && Leaves(id)(e)
      ensures Shows(id, row)(ApplyEventWith(fetch)(rows, e))
    {
      UntouchedRow(rows, e, id, fetch);
    }
  }

  lemma {:induction false} StoresShown(id: string, event: Event, fetch: string -> Full)
    requires StoresId(id)(event)
    ensures forall rows :: Shows(id, Row(fetch(id), false))(ApplyEventWith(fetch)(rows, event))
  {
    forall rows
      ensures Shows(id, Row(fetch(id), false))(ApplyEventWith(fetch)(rows, event))
    {
      StoredRow(rows, event, id, fetch);
    }
  }

  lemma {:induction false} PrefixRow(base: Rows, log: seq<Event>, k: nat, id: string, fetch: string -> Full)
    requires LastStored(log, k, id)
    ensures Shows(id, Row(fetch(id), false))(Prefix(base, log, |log|, fetch))
  {
    StoresShown(id, log[k], fetch);
    LeavesShown(id, Row(fetch(id), false), fetch);
    FoldLast(base, log, k, ApplyEventWith(fetch), Shows(id, Row(fetch(id), false)), Leaves(id));
    PrefixIsFold(base, log, |log|, fetch);
    assert log[..|log|] == log;
  }

  ghost predicate CaughtUp(run: seq<Cached>)
    requires run != []
  {
    run[|run| - 1].state.cursor == At(|run[|run| - 1].state.log|)
  }

  /**
   Once a message is cached, no later event changes its row to anything else:
   when the cursor has caught up, an id last stored by any event shows the
   message that was in the cache at any earlier time.
   */
  lemma {:induction false} CachedMessageStays(run: seq<Cached>, i: nat, k: nat, id: string)
    requires IsCachedRun(run) && CaughtUp(run) && i < |run| && id in run[i].cache
    requires LastStored(run[|run| - 1].state.log, k, id)
    ensures Look(run[|run| - 1].state.rows, id) == Some(Row(run[i].cache[id], false))
  {
    CacheReachesEnd(run, i);
    LastRow(run, k, id, run[i].cache);
  }

  lemma {:induction false} LastRow(run: seq<Cached>, k: nat, id: string, before: map<string, Full>)
    requires IsCachedRun(run) && CaughtUp(run) && LastStored(run[|run| - 1].state.log, k, id)
    requires Extends(before, run[|run| - 1].cache) && id in before
    ensures Look(run[|run| - 1].state.rows, id) == Some(Row(before[id], false))
  {
    var last := run[|run| - 1];
    CachedCaughtUpIsCrashFree(run);
    PrefixRow(run[0].state.rows, last.state.log, k, id, FetchOf(last.cache));
    ShowsCached(last.state.rows, last.cache, id);
  }

  lemma {:induction false} ShowsCached(rows: Rows, cache: map<string, Full>, id: string)
    requires Shows(id, Row(FetchOf(cache)(id), false))(rows) && id in cache
    ensures Look(rows, id) == Some(Row(cache[id], false))
  {
  }

  /**
   The last event to store an id fetches it at m, when the server says
   `current`. In the end its row shows that if and only if no other message was
   cached before.
   */
  lemma {:induction false} UpdateIsCurrentIff(run: seq<Cached>, m: nat, current: Full, id: string)
    requires IsCachedRun(run) && CaughtUp(run) && m + 1 < |run|
    requires Storing(run[m].state) && NextWrite(run[m].state) == Put(id)
    requires CachedStep(run[m], WriteNext, current, run[m + 1]) && id !in run[m + 1].torn
    requires LastStored(run[|run| - 1].state.log, run[m].state.control.k, id)
    ensures Look(run[|run| - 1].state.rows, id) == Some(Row(current, false)) <==>
              id !in run[m].cache || run[m].cache[id] == current
  {
    assert run[m + 1].cache == Remembered(run[m].cache, id, current);
    CachedMessageStays(run, m + 1, run[m].state.control.k, id);
  }

  // ----- a change that never arrives -----

  const UNREAD := Full("inbox", false, [])
  const READ := Full("inbox", true, [])
  const CREATED := Changes([MessageEvent("m", Create)])
  const MARKED := Changes([MessageEvent("m", UpdateFlags)])

  function Before(cursor: nat, control: Control, rows: Rows): State {
    State([CREATED, MARKED], rows, At(cursor), control)
  }

  const KEPT: map<string, Full> := map["m" := UNREAD]
  const ROWS: Rows := map["m" := Row(UNREAD, false)]

  lemma {:induction false} OneWrite(action: EventAction)
    requires action != Delete
    ensures Writes(Changes([MessageEvent("m", action)])) == [Put("m")]
  {
    var messages := [MessageEvent("m", action)];
    assert messages[1..] == [];
    assert Deletes(messages) == [] && SyncIds(messages) == ["m"];
    assert Puts(["m"]) == [Put("m")];
  }

  lemma {:induction false} Begins(k: nat, rows: Rows, cache: map<string, Full>)
    requires k < 2
    ensures CachedNext(Cached(Before(k, Idle, rows), cache, {}), Cached(Before(k, Applying(k, 0), rows), cache, {}))
  {
    assert CachedStep(Cached(Before(k, Idle, rows), cache, {}), Start, UNREAD,
                      Cached(Before(k, Applying(k, 0), rows), cache, {}));
  }

  lemma {:induction false} Ends(k: nat, rows: Rows, cache: map<string, Full>)
    requires k < 2
    ensures CachedNext(Cached(Before(k, Applying(k, 1), rows), cache, {}), Cached(Before(k + 1, Idle, rows), cache, {}))
  {
    OneWrite(Create);
    OneWrite(UpdateFlags);
    assert CachedStep(Cached(Before(k, Applying(k, 1), rows), cache, {}), Save, UNREAD,
                      Cached(Before(k + 1, Idle, rows), cache, {}));
  }

  /** The created message is fetched as the server has it, unread. */
  lemma {:induction false} FetchesUnread()
    ensures CachedNext(Cached(Before(0, Applying(0, 0), map[]), map[], {}),
                       Cached(Before(0, Applying(0, 1), ROWS), KEPT, {}))
  {
    OneWrite(Create);
    assert CachedStep(Cached(Before(0, Applying(0, 0), map[]), map[], {}), WriteNext, UNREAD,
                      Cached(Before(0, Applying(0, 1), ROWS), KEPT, {}));
  }

  /** When its flags are updated the server has it as read, and is not asked. */
  lemma {:induction false} KeepsUnread()
    ensures CachedStep(Cached(Before(1, Applying(1, 0), ROWS), KEPT, {}), WriteNext, READ,
                       Cached(Before(1, Applying(1, 1), ROWS), KEPT, {}))
  {
    OneWrite(UpdateFlags);
    assert Apply(ROWS, Put("m"), FetchOf(KEPT)) == ROWS;
  }

  function FlagState(i: nat): Cached {
    match i
    case 0 => Cached(Before(0, Idle, map[]), map[], {})
    case 1 => Cached(Before(0, Applying(0, 0), map[]), map[], {})
    case 2 => Cached(Before(0, Applying(0, 1), ROWS), KEPT, {})
    case 3 => Cached(Before(1, Idle, ROWS), KEPT, {})
    case 4 => Cached(Before(1, Applying(1, 0), ROWS), KEPT, {})
    case 5 => Cached(Before(1, Applying(1, 1), ROWS), KEPT, {})
    case _ => Cached(Before(2, Idle, ROWS), KEPT, {})
  }

  function FlagRun(): (run: seq<Cached>)
    ensures |run| == 7 && forall i :: 0 <= i < 7 ==> run[i] == FlagState(i)
  {
    seq(7, (i: nat) => FlagState(i))
  }

  lemma {:induction false} FlagStep(i: nat)
    requires i < 6
    ensures CachedNext(FlagState(i), FlagState(i + 1))
  {
    match i {
      case 0 => Begins(0, map[], map[]);
      case 1 => FetchesUnread();
      case 2 => Ends(0, ROWS, KEPT);
      case 3 => Begins(1, ROWS, KEPT);
      case 4 => KeepsUnread();
      case _ => Ends(1, ROWS, KEPT);
    }
  }

  lemma {:induction false} FlagRunIsRun()
    ensures IsCachedRun(FlagRun())
  {
    forall i | 0 <= i < 6
      ensures CachedNext(FlagRun()[i], FlagRun()[i + 1])
    {
      FlagStep(i);
    }
  }

  /** A message marked read after it was first fetched stays unread here, with every event applied. */
  lemma {:induction false} FlagChangeMayBeLost()
    ensures exists run: seq<Cached> ::
              && IsCachedRun(run) && |run| == 7 && CaughtUp(run)
              && CachedStep(run[4], WriteNext, READ, run[5])
              && Look(run[6].state.rows, "m") == Some(Row(UNREAD, false))
  {
    FlagRunIsRun();
    KeepsUnread();
    FlagRunEnds();
  }

  lemma {:induction false} FlagRunEnds()
    ensures CaughtUp(FlagRun()) && Look(FlagRun()[6].state.rows, "m") == Some(Row(UNREAD, false))
    ensures FlagRun()[4] == Cached(Before(1, Applying(1, 0), ROWS), KEPT, {})
    ensures FlagRun()[5] == Cached(Before(1, Applying(1, 1), ROWS), KEPT, {})
  {
  }

  // ----- a torn cache file -----

  /** What is written of the event at hand is cached, and no cached file is torn. */
  ghost predicate CacheInv(s: Cached) {
    && s.cache.Keys !! s.torn
    && (s.state.control.Applying? ==>
          && s.state.cursor == At(s.state.control.k) && s.state.control.k < |s.state.log|
          && s.state.control.written <= |Writes(s.state.log[s.state.control.k])|
          && PutsCached(Writes(s.state.log[s.state.control.k])[..s.state.control.written], s.cache))
  }

  lemma {:induction false} StoreKeepsCacheInv(s: Cached, current: Full, s': Cached)
    requires CacheInv(s) && Storing(s.state) && StoreStep(s, current, s')
    ensures CacheInv(s')
  {
    var k, j := s.state.control.k, s.state.control.written;
    var writes := Writes(s.state.log[k]);
    if s'.torn == s.torn {
      PutsStayCached(writes[..j], s.cache, s'.cache);
      PutsCachedOneMore(writes, j, s'.cache);
    }
  }

  lemma {:induction false} StepKeepsCacheInv(s: Cached, a: Action, current: Full, s': Cached)
    requires CacheInv(s) && CachedStep(s, a, current, s')
    ensures CacheInv(s')
  {
    if a.WriteNext? && Storing(s.state) {
      StoreKeepsCacheInv(s, current, s');
    } else if a.WriteNext? {
      PutsCachedOneMore(Writes(s.state.log[s.state.control.k]), s.state.control.written, s'.cache);
    } else if a.Arrive? && s.state.control.Applying? {
      assert s'.state.log[s.state.control.k] == s.state.log[s.state.control.k];
    }
  }

  lemma {:induction false} RunsKeepCacheInv(run: seq<Cached>, i: nat)
    requires IsCachedRun(run) && i < |run|
    ensures CacheInv(run[i])
  {
    if i > 0 {
      RunsKeepCacheInv(run, i - 1);
      assert CachedNext(run[i - 1], run[i - 1 + 1]);
      var a, current :| CachedStep(run[i - 1], a, current, run[i]);
      StepKeepsCacheInv(run[i - 1], a, current, run[i]);
    }
  }

  /** Whether an event can be applied to the end: it stores no message whose cache file is torn. */
  ghost function Passable(): (set<string>, Event) -> bool {
    (torn: set<string>, event: Event) => forall id :: id in torn ==> !Stores(Writes(event), id)
  }

  lemma {:induction false} CompleteIsPassable(s: Cached)
    requires CacheInv(s) && Complete(s.state)
    ensures Passable()(s.torn, s.state.log[s.state.control.k])
  {
    var writes := Writes(s.state.log[s.state.control.k]);
    assert writes[..|writes|] == writes;
    assert forall id :: Stores(writes, id) ==> Put(id) in writes;
  }

  /** What of a state decides where the cursor can go. */
  datatype View = View(log: seq<Event>, cursor: Cursor, torn: set<string>)

  function ViewOf(s: Cached): View {
    View(s.state.log, s.state.cursor, s.torn)
  }

  ghost predicate ViewMoves(v: View, v': View, passable: (set<string>, Event) -> bool) {
    && v.log <= v'.log && v.torn <= v'.torn
    && (|| v'.cursor == v.cursor || v'.cursor.Torn?
        || (&& v.cursor.At? && v.cursor.k < |v.log| && passable(v.torn, v.log[v.cursor.k])
            && v'.cursor == At(v.cursor.k + 1)))
  }

  lemma {:induction false} OnlySaveMovesCursor(s: Cached, a: Action, current: Full, s': Cached)
    requires CachedStep(s, a, current, s')
    ensures s.state.log <= s'.state.log && s.torn <= s'.torn
    ensures || s'.state.cursor == s.state.cursor || s'.state.cursor.Torn?
            || (Complete(s.state) && s'.state.cursor == At(s.state.control.k + 1))
  {
  }

  lemma {:induction false} StepMovesView(s: Cached, a: Action, current: Full, s': Cached)
    requires CacheInv(s) && CachedStep(s, a, current, s')
    ensures ViewMoves(ViewOf(s), ViewOf(s'), Passable())
  {
    OnlySaveMovesCursor(s, a, current, s');
    if Complete(s.state) {
      CompleteIsPassable(s);
    }
  }

  lemma {:induction false} NextMovesView(s: Cached, s': Cached)
    requires CacheInv(s) && CachedNext(s, s')
    ensures ViewMoves(ViewOf(s), ViewOf(s'), Passable())
  {
    var a, current :| CachedStep(s, a, current, s');
    StepMovesView(s, a, current, s');
  }

  function ViewsOf(run: seq<Cached>): (views: seq<View>)
    ensures |views| == |run| && forall i :: 0 <= i < |run| ==> views[i] == ViewOf(run[i])
  {
    seq(|run|, i requires 0 <= i < |run| => ViewOf(run[i]))
  }

  ghost predicate ViewRun(views: seq<View>, passable: (set<string>, Event) -> bool) {
    forall i :: 0 <= i < |views| - 1 ==> ViewMoves(views[i], views[i + 1], passable)
  }

  lemma {:induction false} RunMovesViews(run: seq<Cached>)
    requires IsCachedRun(run)
    ensures ViewRun(ViewsOf(run), Passable())
  {
    forall i | 0 <= i < |run| - 1
      ensures ViewMoves(ViewsOf(run)[i], ViewsOf(run)[i + 1], Passable())
    {
      RunsKeepCacheInv(run, i);
      assert CachedNext(run[i], run[i + 1]);
      NextMovesView(run[i], run[i + 1]);
    }
  }

  /** The cursor has not passed event n, which stores a message whose cache file is torn. */
  ghost predicate Held(v: View, n: nat, event: Event, id: string) {
    id in v.torn && n < |v.log| && v.log[n] == event && (v.cursor.At? ==> v.cursor.k <= n)
  }

  lemma {:induction false} HeldStays(
      v: View, v': View, n: nat, event: Event, id: string, passable: (set<string>, Event) -> bool)
    requires ViewMoves(v, v', passable) && Held(v, n, event, id)
    requires forall torn :: id in torn ==> !passable(torn, event)
    ensures Held(v', n, event, id)
  {
  }

  lemma {:induction false} HeldViewsStay(
      views: seq<View>, i: nat, j: nat, n: nat, event: Event, id: string, passable: (set<string>, Event) -> bool)
    requires ViewRun(views, passable) && i <= j < |views| && Held(views[i], n, event, id)
    requires forall torn :: id in torn ==> !passable(torn, event)
    ensures Held(views[j], n, event, id)
  {
    if i < j {
      HeldViewsStay(views, i, j - 1, n, event, id, passable);
      assert ViewMoves(views[j - 1], views[j - 1 + 1], passable);
      HeldStays(views[j - 1], views[j], n, event, id, passable);
    }
  }

  /**
   Once a cache file is torn, the cursor stays at the first event to come that
   stores its message, whatever is retried.
   */
  lemma {:induction false} TornCacheFileStops(run: seq<Cached>, i: nat, j: nat, n: nat, event: Event, id: string)
    requires IsCachedRun(run) && i <= j < |run|
    requires Held(ViewOf(run[i]), n, event, id) && StoresId(id)(event)
    ensures Held(ViewOf(run[j]), n, event, id)
  {
    RunMovesViews(run);
    HeldViewsStay(ViewsOf(run), i, j, n, event, id, Passable());
  }

  // ----- another run, another answer -----

  lemma {:induction false} SameFetchSameRows(
      rows: Rows, writes: seq<Write>, fetch: string -> Full, fetch': string -> Full)
    requires SameFor(writes, fetch, fetch')
    ensures ApplyAll(rows, writes, fetch) == ApplyAll(rows, writes, fetch')
    decreases |writes|
  {
    if writes != [] {
      assert writes[0] in writes;
      SameFetchSameRows(Apply(rows, writes[0], fetch), writes[1..], fetch, fetch');
    }
  }

  /** Both functions give the same message for every id the first k events store. */
  ghost predicate SameAnswers(log: seq<Event>, k: nat, fetch: string -> Full, fetch': string -> Full) {
    k <= |log| && AllOf(log[..k], IsSame(fetch, fetch'))
  }

  ghost function IsSame(fetch: string -> Full, fetch': string -> Full): Event -> bool {
    (event: Event) => SameFor(Writes(event), fetch, fetch')
  }

  ghost predicate SameFor(writes: seq<Write>, fetch: string -> Full, fetch': string -> Full) {
    forall w :: w in writes && w.Put? ==> fetch(w.id) == fetch'(w.id)
  }

  lemma {:induction false} CachedSame(
      log: seq<Event>, k: nat, fetch: string -> Full, fetch': string -> Full, cache: map<string, Full>)
    requires AllCached(log, k, cache) && forall id :: id in cache ==> fetch(id) == fetch'(id)
    ensures SameAnswers(log, k, fetch, fetch')
  {
    forall e | IsCached(cache)(e)
      ensures IsSame(fetch, fetch')(e)
    {
      CachedSameFor(Writes(e), fetch, fetch', cache);
    }
    AllOfImplies(log[..k], IsCached(cache), IsSame(fetch, fetch'));
  }

  lemma {:induction false} CachedSameFor(
      writes: seq<Write>, fetch: string -> Full, fetch': string -> Full, cache: map<string, Full>)
    requires PutsCached(writes, cache) && forall id :: id in cache ==> fetch(id) == fetch'(id)
    ensures SameFor(writes, fetch, fetch')
  {
  }

  lemma {:induction false} SameFold(
      base: Rows, log: seq<Event>, step: (Rows, Event) -> Rows, step': (Rows, Event) -> Rows, same: Event -> bool)
    requires AllOf(log, same) && forall rows, e :: same(e) ==> step(rows, e) == step'(rows, e)
    ensures Fold(base, log, step) == Fold(base, log, step')
  {
    if log != [] {
      SameFold(base, log[..|log| - 1], step, step', same);
      assert log[|log| - 1] in log;
    }
  }

  lemma {:induction false} SameSteps(fetch: string -> Full, fetch': string -> Full)
    ensures forall rows, e :: IsSame(fetch, fetch')(e) ==>
              ApplyEventWith(fetch)(rows, e) == ApplyEventWith(fetch')(rows, e)
  {
    forall rows, e | IsSame(fetch, fetch')(e)
      ensures ApplyEventWith(fetch)(rows, e) == ApplyEventWith(fetch')(rows, e)
    {
      SameFetchSameRows(rows, Writes(e), fetch, fetch');
    }
  }

  lemma {:induction false} SamePrefix(
      base: Rows, log: seq<Event>, k: nat, fetch: string -> Full, fetch': string -> Full)
    requires SameAnswers(log, k, fetch, fetch')
    ensures PrefixAt(base, log, fetch)(k) == PrefixAt(base, log, fetch')(k)
  {
    PrefixIsFold(base, log, k, fetch);
    PrefixIsFold(base, log, k, fetch');
    SameSteps(fetch, fetch');
    SameFold(base, log[..k], ApplyEventWith(fetch), ApplyEventWith(fetch'), IsSame(fetch, fetch'));
  }

  /** An id that is stored ends the same wherever it started; any other does not depend on what is fetched. */
  lemma {:induction false} EffectForgets(
      x: Option<Row>, y: Option<Row>, writes: seq<Write>, id: string, fetch: string -> Full, fetch': string -> Full)
    ensures Stores(writes, id) ==> EffectAll(x, writes, id, fetch) == EffectAll(y, writes, id, fetch)
    ensures !Stores(writes, id) ==> EffectAll(x, writes, id, fetch) == EffectAll(x, writes, id, fetch')
    decreases |writes|
  {
    if writes != [] {
      var first, rest := writes[0], writes[1..];
      assert writes == [first] + rest;
      if Stores(rest, id) {
        assert Put(id) in writes;
      }
      EffectForgets(Effect(x, first, id, fetch), Effect(y, first, id, fetch), rest, id, fetch, fetch');
      if first == Put(id) {
        assert Put(id) in writes;
      }
    }
  }

  /**
   What a run left is as good for a later one in which the server answers
   otherwise, as long as cached messages stay: nothing else has been used.
   */
  lemma {:induction false} ConsistentForAnyAnswer(
      base: Rows, log: seq<Event>, rows: Rows, k: nat, fetch: string -> Full, fetch': string -> Full,
      cache: map<string, Full>)
    requires Consistent(base, log, rows, k, fetch) && AllCached(log, k, cache)
    requires forall id :: id in cache ==> fetch(id) == fetch'(id)
    ensures Consistent(base, log, rows, k, fetch')
  {
    CachedSame(log, k, fetch, fetch', cache);
    SamePrefix(base, log, k, fetch, fetch');
    if k < |log| {
      var before, writes := Prefix(base, log, k, fetch), Writes(log[k]);
      forall id
        ensures Look(ApplyAll(rows, writes, fetch'), id) == Look(ApplyAll(before, writes, fetch'), id)
      {
        LookAfterAll(rows, writes, id, fetch);
        LookAfterAll(before, writes, id, fetch);
        LookAfterAll(rows, writes, id, fetch');
        LookAfterAll(before, writes, id, fetch');
        EffectForgets(Look(rows, id), Look(before, id), writes, id, fetch', fetch);
        EffectForgets(Look(before, id), Look(rows, id), writes, id, fetch', fetch);
      }
      SameLooks(ApplyAll(rows, writes, fetch'), ApplyAll(before, writes, fetch'));
    }
  }
}
