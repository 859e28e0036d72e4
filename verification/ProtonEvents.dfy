/**
 The Proton event cursor: fetch the event after the durable cursor, apply it,
 save the new cursor. Events are named here by their position in the server's
 log, so a cursor `At(k)` is the event id that precedes event k.

 Local rows are keyed by the Proton id they are hashed from. `fetch` gives the
 message fetched for an id, which is fixed: the raw-message cache is asked first.
 */
module ProtonEvents {
  import opened Basics
  import Ordering

  datatype EventAction = Delete | Create | Update | UpdateFlags

  datatype MessageEvent = MessageEvent(id: string, action: EventAction)

  /** An event that asks for a full refresh relists every message instead of naming changes. */
  datatype Event = Refresh(listing: seq<string>) | Changes(messages: seq<MessageEvent>)

  datatype Full = Full(localRole: string, readState: bool, content: Bytes)

  datatype Row = Row(message: Full, deleted: bool)

  type Rows = map<string, Row>

  // ----- one event as a sequence of writes -----

  datatype Write = MarkDeleted(id: string) | Put(id: string)

  function Deletes(messages: seq<MessageEvent>): seq<Write> {
    if messages == [] then []
    else (if messages[0].action == Delete then [MarkDeleted(messages[0].id)] else []) + Deletes(messages[1..])
  }

  function InsertId(id: string, ids: seq<string>): seq<string> {
    if ids == [] || Ordering.Less(id, ids[0]) then [id] + ids
    else if id == ids[0] then ids
    else [ids[0]] + InsertId(id, ids[1..])
  }

  /** The ids to fetch, sorted and without duplicates. */
  function SyncIds(messages: seq<MessageEvent>): seq<string> {
    if messages == [] then []
    else if messages[0].action == Delete then SyncIds(messages[1..])
    else InsertId(messages[0].id, SyncIds(messages[1..]))
  }

  function Puts(ids: seq<string>): (writes: seq<Write>)
    ensures |writes| == |ids| && forall i :: 0 <= i < |ids| ==> writes[i] == Put(ids[i])
  {
    if ids == [] then [] else [Put(ids[0])] + Puts(ids[1..])
  }

  /** Deletions are applied as they are read; what is to be fetched is stored after all of them. */
  function Writes(event: Event): seq<Write> {
    match event
    case Refresh(listing) => Puts(listing)
    case Changes(messages) => Deletes(messages) + Puts(SyncIds(messages))
  }

  function Apply(rows: Rows, w: Write, fetch: string -> Full): Rows {
    match w
    case MarkDeleted(id) => if id in rows then rows[id := rows[id].(deleted := true)] else rows
    case Put(id) => rows[id := Row(fetch(id), false)]
  }

  function ApplyAll(rows: Rows, writes: seq<Write>, fetch: string -> Full): Rows
    decreases |writes|
  {
    if writes == [] then rows else ApplyAll(Apply(rows, writes[0], fetch), writes[1..], fetch)
  }

  /** The crash-free run: the first k events, each applied once, in order. */
  function Prefix(rows: Rows, log: seq<Event>, k: nat, fetch: string -> Full): Rows
    requires k <= |log|
  {
    if k == 0 then rows else ApplyAll(Prefix(rows, log, k - 1, fetch), Writes(log[k - 1]), fetch)
  }

  // ----- what one event does to one row -----

  predicate Mentions(messages: seq<MessageEvent>, id: string, deleting: bool) {
    exists i :: 0 <= i < |messages| && messages[i].id == id && (messages[i].action == Delete <==> deleting)
  }

  lemma {:induction false} InsertIdExact(id: string, ids: seq<string>)
    ensures forall x :: x in InsertId(id, ids) <==> x == id || x in ids
  {
    if ids != [] {
      InsertIdExact(id, ids[1..]);
      assert ids == [ids[0]] + ids[1..];
    }
  }

  ghost predicate Ascending(ids: seq<string>) {
    forall i, j :: 0 <= i < j < |ids| ==> Ordering.Less(ids[i], ids[j])
  }

  lemma {:induction false} InsertIdSorts(id: string, ids: seq<string>)
    requires Ascending(ids)
    ensures Ascending(InsertId(id, ids))
  {
    if ids != [] && Ordering.Less(id, ids[0]) {
      forall j | 0 <= j < |ids|
        ensures Ordering.Less(id, ids[j])
      {
        if j > 0 {
          Ordering.LessTransitive(id, ids[0], ids[j]);
        }
      }
    } else if ids != [] && id != ids[0] {
      Ordering.LessTotal(id, ids[0]);
      InsertIdSorts(id, ids[1..]);
      InsertIdExact(id, ids[1..]);
      var rest := InsertId(id, ids[1..]);
      forall j | 0 <= j < |rest|
        ensures Ordering.Less(ids[0], rest[j])
      {
        assert rest[j] in rest;
      }
    }
  }

  /** Sorted, and so without duplicates. */
  lemma {:induction false} SyncIdsSorted(messages: seq<MessageEvent>)
    ensures Ascending(SyncIds(messages))
  {
    if messages != [] {
      SyncIdsSorted(messages[1..]);
      if messages[0].action != Delete {
        InsertIdSorts(messages[0].id, SyncIds(messages[1..]));
      }
    }
  }

  lemma {:induction false} SyncIdsExact(messages: seq<MessageEvent>, id: string)
    ensures id in SyncIds(messages) <==> Mentions(messages, id, false)
  {
    if messages != [] {
      SyncIdsExact(messages[1..], id);
      MentionsFirst(messages, id, false);
      if messages[0].action != Delete {
        InsertIdExact(messages[0].id, SyncIds(messages[1..]));
      }
    }
  }

  lemma {:induction false} MentionsFirst(messages: seq<MessageEvent>, id: string, deleting: bool)
    requires messages != []
    ensures Mentions(messages, id, deleting) <==>
              (messages[0].id == id && (messages[0].action == Delete <==> deleting)) || Mentions(messages[1..], id,
                deleting)
  {
    if Mentions(messages[1..], id, deleting) {
      var i :| 0 <= i < |messages[1..]| && messages[1..][i].id == id &&
        (messages[1..][i].action == Delete <==> deleting);
      assert messages[i + 1] == messages[1..][i];
    }
    if Mentions(messages, id, deleting) {
      var i :| 0 <= i < |messages| && messages[i].id == id && (messages[i].action == Delete <==> deleting);
      if i > 0 {
        assert messages[1..][i - 1] == messages[i];
      }
    }
  }

  lemma {:induction false} EffectOfFirst(
      row: Option<Row>, w: Write, writes: seq<Write>, id: string, fetch: string -> Full)
    ensures EffectAll(row, [w] + writes, id, fetch) == EffectAll(Effect(row, w, id, fetch), writes, id, fetch)
  {
    assert ([w] + writes)[0] == w && ([w] + writes)[1..] == writes;
  }

  /** The row of an id after the deletions among `messages`. */
  function AfterDeletes(row: Option<Row>, messages: seq<MessageEvent>, id: string, fetch: string -> Full): Option<Row> {
    if Mentions(messages, id, true) then Effect(row, MarkDeleted(id), id, fetch) else row
  }

  lemma {:induction false} AfterFirstDelete(
      row: Option<Row>, messages: seq<MessageEvent>, id: string, fetch: string -> Full)
    requires messages != []
    ensures
      var first := if messages[0].action == Delete then Effect(row, MarkDeleted(messages[0].id), id, fetch) else row;
      AfterDeletes(row, messages, id, fetch) == AfterDeletes(first, messages[1..], id, fetch)
  {
    MentionsFirst(messages, id, true);
  }

  lemma {:induction false} EffectOfDeletes(
      row: Option<Row>, messages: seq<MessageEvent>, rest: seq<Write>, id: string, fetch: string -> Full)
    ensures EffectAll(row, Deletes(messages) + rest, id, fetch) ==
            EffectAll(AfterDeletes(row, messages, id, fetch), rest, id, fetch)
    decreases |messages|
  {
    if messages == [] {
      assert Deletes(messages) + rest == rest;
    } else {
      AfterFirstDelete(row, messages, id, fetch);
      if messages[0].action == Delete {
        var w := MarkDeleted(messages[0].id);
        assert Deletes(messages) + rest == [w] + (Deletes(messages[1..]) + rest);
        EffectOfFirst(row, w, Deletes(messages[1..]) + rest, id, fetch);
        EffectOfDeletes(Effect(row, w, id, fetch), messages[1..], rest, id, fetch);
      } else {
        assert Deletes(messages) + rest == Deletes(messages[1..]) + rest;
        EffectOfDeletes(row, messages[1..], rest, id, fetch);
      }
    }
  }

  lemma {:induction false} EffectOfPuts(row: Option<Row>, ids: seq<string>, id: string, fetch: string -> Full)
    ensures EffectAll(row, Puts(ids), id, fetch) == if id in ids then Some(Row(fetch(id), false)) else row
    decreases |ids|
  {
    if ids != [] {
      EffectOfPuts(Effect(row, Put(ids[0]), id, fetch), ids[1..], id, fetch);
      assert ids == [ids[0]] + ids[1..];
    }
  }

  /**
   One event, row by row: an id it creates or updates ends live with the
   fetched message, even if the same event also deletes it; an id it only
   deletes is marked if it exists; every other row is untouched.
   */
  lemma {:induction false} EventRow(rows: Rows, messages: seq<MessageEvent>, id: string, fetch: string -> Full)
    ensures Look(ApplyAll(rows, Writes(Changes(messages)), fetch), id) ==
            if Mentions(messages, id, false) then Some(Row(fetch(id), false))
            else if Mentions(messages, id, true) && id in rows then Some(rows[id].(deleted := true))
            else Look(rows, id)
  {
    LookAfterAll(rows, Writes(Changes(messages)), id, fetch);
    EffectOfDeletes(Look(rows, id), messages, Puts(SyncIds(messages)), id, fetch);
    SyncIdsExact(messages, id);
    var marked := AfterDeletes(Look(rows, id), messages, id, fetch);
    EffectOfPuts(marked, SyncIds(messages), id, fetch);
  }

  /** A full refresh leaves every message it lists live as fetched, and every other row as it was. */
  lemma {:induction false} RefreshRow(rows: Rows, listing: seq<string>, id: string, fetch: string -> Full)
    ensures Look(ApplyAll(rows, Writes(Refresh(listing)), fetch), id) ==
            if id in listing then Some(Row(fetch(id), false)) else Look(rows, id)
  {
    LookAfterAll(rows, Puts(listing), id, fetch);
    EffectOfPuts(Look(rows, id), listing, id, fetch);
  }

  /** An event that updates a message and then deletes it leaves it live. */
  lemma {:induction false} UpdateThenDeleteLeavesLive(rows: Rows, id: string, fetch: string -> Full)
    ensures
      var event := Changes([MessageEvent(id, Update), MessageEvent(id, Delete)]);
      Look(ApplyAll(rows, Writes(event), fetch), id) == Some(Row(fetch(id), false))
  {
    var messages := [MessageEvent(id, Update), MessageEvent(id, Delete)];
    assert messages[0].id == id && messages[0].action != Delete;
    assert Mentions(messages, id, false);
    EventRow(rows, messages, id, fetch);
  }

  // ----- repeating part of an event -----

  function Look(rows: Rows, id: string): Option<Row> {
    if id in rows then Some(rows[id]) else None
  }

  function Effect(row: Option<Row>, w: Write, id: string, fetch: string -> Full): Option<Row> {
    if w.id != id then row
    else if w.Put? then Some(Row(fetch(id), false))
    else if row.Some? then Some(row.value.(deleted := true))
    else None
  }

  function EffectAll(row: Option<Row>, writes: seq<Write>, id: string, fetch: string -> Full): Option<Row>
    decreases |writes|
  {
    if writes == [] then row else EffectAll(Effect(row, writes[0], id, fetch), writes[1..], id, fetch)
  }

  lemma {:induction false} LookAfterAll(rows: Rows, writes: seq<Write>, id: string, fetch: string -> Full)
    ensures Look(ApplyAll(rows, writes, fetch), id) == EffectAll(Look(rows, id), writes, id, fetch)
    decreases |writes|
  {
    if writes != [] {
      LookAfterAll(Apply(rows, writes[0], fetch), writes[1..], id, fetch);
    }
  }

  /** A write repeated before the event it belongs to leaves no trace after it. */
  lemma {:induction false} EffectAbsorbed(
      row: Option<Row>, w: Write, writes: seq<Write>, id: string, fetch: string -> Full)
    requires w in writes
    ensures EffectAll(Effect(row, w, id, fetch), writes, id, fetch) == EffectAll(row, writes, id, fetch)
    decreases |writes|
  {
    var first, rest := writes[0], writes[1..];
    if w != first {
      assert w in rest;
      var x, y := Effect(row, first, id, fetch), Effect(Effect(row, w, id, fetch), first, id, fetch);
      EffectAbsorbed(x, w, rest, id, fetch);
      EffectAbsorbed(y, w, rest, id, fetch);
      assert Effect(y, w, id, fetch) == Effect(x, w, id, fetch);
    }
  }

  lemma {:induction false} RepeatAbsorbed(rows: Rows, w: Write, writes: seq<Write>, fetch: string -> Full)
    requires w in writes
    ensures ApplyAll(Apply(rows, w, fetch), writes, fetch) == ApplyAll(rows, writes, fetch)
  {
    var once, twice := ApplyAll(rows, writes, fetch), ApplyAll(Apply(rows, w, fetch), writes, fetch);
    forall id
      ensures Look(twice, id) == Look(once, id)
    {
      LookAfterAll(rows, writes, id, fetch);
      LookAfterAll(Apply(rows, w, fetch), writes, id, fetch);
      assert Look(Apply(rows, w, fetch), id) == Effect(Look(rows, id), w, id, fetch);
      EffectAbsorbed(Look(rows, id), w, writes, id, fetch);
    }
    SameLooks(twice, once);
  }

  lemma {:induction false} SameLooks(a: Rows, b: Rows)
    requires forall id :: Look(a, id) == Look(b, id)
    ensures a == b
  {
    forall id
      ensures id in a <==> id in b
      ensures id in a ==> a[id] == b[id]
    {
      assert Look(a, id) == Look(b, id);
    }
  }

  // ----- runs with crashes -----

  /** The cursor file is rewritten in place: a crash can leave it unparseable. */
  datatype Cursor = At(k: nat) | Torn

  datatype Control = Idle | Applying(k: nat, written: nat)

  datatype State = State(log: seq<Event>, rows: Rows, cursor: Cursor, control: Control)

  datatype Action = Arrive(events: seq<Event>) | Start | WriteNext | Save | SaveTorn | Crash

  /** `Crash` is also any error on the way: both abandon the event before its cursor is saved. */
  ghost predicate Step(s: State, a: Action, s': State, fetch: string -> Full) {
    match a
    case Arrive(events) =>
      s' == s.(log := s.log + events)
    case Start =>
      s.control == Idle && s.cursor.At? && s.cursor.k < |s.log| && s' == s.(control := Applying(s.cursor.k, 0))
    case WriteNext =>
      s.control.Applying? && s.control.k < |s.log| && s.control.written < |Writes(s.log[s.control.k])| &&
      s' == s.(rows := Apply(s.rows, Writes(s.log[s.control.k])[s.control.written], fetch),
               control := Applying(s.control.k, s.control.written + 1))
    case Save =>
      Complete(s) && s' == s.(cursor := At(s.control.k + 1), control := Idle)
    case SaveTorn =>
      Complete(s) && s' == s.(cursor := Torn, control := Idle)
    case Crash =>
      s' == s.(control := Idle)
  }

  predicate Complete(s: State) {
    s.control.Applying? && s.control.k < |s.log| && s.control.written == |Writes(s.log[s.control.k])|
  }

  ghost predicate Next(s: State, s': State, fetch: string -> Full) {
    exists a :: Step(s, a, s', fetch)
  }

  ghost predicate IsRun(run: seq<State>, fetch: string -> Full) {
    && run != [] && run[0].cursor == At(0) && run[0].control == Idle
    && forall i :: 0 <= i < |run| - 1 ==> Next(run[i], run[i + 1], fetch)
  }

  predicate Touches(event: Event, id: string) {
    exists i :: 0 <= i < |Writes(event)| && Writes(event)[i].id == id
  }

  /**
   The rows are those of the first k events, except that event k may have been
   applied in part, any number of times; applying it once more completes it.
   */
  ghost predicate Consistent(base: Rows, log: seq<Event>, rows: Rows, k: nat, fetch: string -> Full) {
    && k <= |log|
    && if k == |log| then rows == Prefix(base, log, k, fetch)
       else && ApplyAll(rows, Writes(log[k]), fetch) == Prefix(base, log, k + 1, fetch)
            && forall id :: !Touches(log[k], id) ==> Look(rows, id) == Look(Prefix(base, log, k, fetch), id)
  }

  ghost predicate Inv(base: Rows, s: State, fetch: string -> Full) {
    && (s.cursor.At? ==> Consistent(base, s.log, s.rows, s.cursor.k, fetch))
    && (s.control.Applying? ==>
          && s.cursor == At(s.control.k) && s.control.k < |s.log|
          && s.control.written <= |Writes(s.log[s.control.k])|
          && ApplyAll(s.rows, Writes(s.log[s.control.k])[s.control.written..], fetch)
             == Prefix(base, s.log, s.control.k + 1, fetch))
  }

  lemma {:induction false} PrefixOfLonger(base: Rows, log: seq<Event>, more: seq<Event>, k: nat, fetch: string -> Full)
    requires k <= |log|
    ensures Prefix(base, log + more, k, fetch) == Prefix(base, log, k, fetch)
  {
    if k > 0 {
      PrefixOfLonger(base, log, more, k - 1, fetch);
      assert (log + more)[k - 1] == log[k - 1];
      assert Writes((log + more)[k - 1]) == Writes(log[k - 1]);
    }
  }

  /** New events at the end leave what is consistent consistent. */
  lemma {:induction false} ConsistentOfLonger(
      base: Rows, log: seq<Event>, more: seq<Event>, rows: Rows, k: nat, fetch: string -> Full)
    requires Consistent(base, log, rows, k, fetch)
    ensures Consistent(base, log + more, rows, k, fetch)
  {
    PrefixOfLonger(base, log, more, k, fetch);
    if k < |log| {
      PrefixOfLonger(base, log, more, k + 1, fetch);
      assert (log + more)[k] == log[k];
    } else {
      PrefixIsConsistent(base, log + more, k, fetch);
    }
  }

  lemma {:induction false} ArriveKeepsInv(base: Rows, s: State, events: seq<Event>, s': State, fetch: string -> Full)
    requires Inv(base, s, fetch) && Step(s, Arrive(events), s', fetch)
    ensures Inv(base, s', fetch)
  {
    if s.cursor.At? {
      ConsistentOfLonger(base, s.log, events, s.rows, s.cursor.k, fetch);
    }
    if s.control.Applying? {
      var k := s.control.k;
      PrefixOfLonger(base, s.log, events, k + 1, fetch);
      assert s'.log[k] == s.log[k];
    }
  }

  lemma {:induction false} WriteKeepsInv(base: Rows, s: State, s': State, fetch: string -> Full)
    requires Inv(base, s, fetch) && Step(s, WriteNext, s', fetch)
    ensures Inv(base, s', fetch)
  {
    var k, j := s.control.k, s.control.written;
    var writes := Writes(s.log[k]);
    RepeatAbsorbed(s.rows, writes[j], writes, fetch);
    assert writes[j..][0] == writes[j] && writes[j..][1..] == writes[j + 1..];
    forall id | !Touches(s.log[k], id)
      ensures Look(s'.rows, id) == Look(s.rows, id)
    {
      assert writes[j].id != id;
    }
  }

  lemma {:induction false} PrefixIsConsistent(base: Rows, log: seq<Event>, k: nat, fetch: string -> Full)
    requires k <= |log|
    ensures Consistent(base, log, Prefix(base, log, k, fetch), k, fetch)
  {
  }

  lemma {:induction false} StepKeepsInv(base: Rows, s: State, a: Action, s': State, fetch: string -> Full)
    requires Inv(base, s, fetch) && Step(s, a, s', fetch)
    ensures Inv(base, s', fetch)
  {
    match a {
      case Arrive(events) => ArriveKeepsInv(base, s, events, s', fetch);
      case WriteNext => WriteKeepsInv(base, s, s', fetch);
      case Start => assert Writes(s.log[s.cursor.k])[0..] == Writes(s.log[s.cursor.k]);
      case Save =>
        assert s.rows == Prefix(base, s.log, s.control.k + 1, fetch);
      case _ =>
    }
  }

  lemma {:induction false} RunsKeepInv(run: seq<State>, i: nat, fetch: string -> Full)
    requires IsRun(run, fetch) && i < |run|
    ensures Inv(run[0].rows, run[i], fetch)
  {
    if i > 0 {
      RunsKeepInv(run, i - 1, fetch);
      assert Next(run[i - 1], run[i - 1 + 1], fetch);
      var a :| Step(run[i - 1], a, run[i], fetch);
      StepKeepsInv(run[0].rows, run[i - 1], a, run[i], fetch);
    }
  }

  // ----- theorems over every run -----

  /**
   Under any schedule of crashes the durable cursor names a prefix of the log
   that has been applied in full and in order; at most the event after it has
   been applied in part, and completing it gives the crash-free rows.
   */
  lemma {:induction false} CursorNamesAppliedPrefix(run: seq<State>, i: nat, fetch: string -> Full)
    requires IsRun(run, fetch) && i < |run| && run[i].cursor.At?
    ensures Consistent(run[0].rows, run[i].log, run[i].rows, run[i].cursor.k, fetch)
  {
    RunsKeepInv(run, i, fetch);
  }

  /** Whenever the cursor has caught up, the rows are exactly those of the run without crashes. */
  lemma {:induction false} CaughtUpEqualsCrashFree(run: seq<State>, i: nat, fetch: string -> Full)
    requires IsRun(run, fetch) && i < |run| && run[i].cursor == At(|run[i].log|)
    ensures run[i].rows == Prefix(run[0].rows, run[i].log, |run[i].log|, fetch)
  {
    RunsKeepInv(run, i, fetch);
  }

  /** A cursor moves by at most one event at a time, and a torn one stays torn. */
  ghost predicate CursorRun(cursors: seq<Cursor>) {
    forall i :: 0 <= i < |cursors| - 1 ==> CursorMoves(cursors[i], cursors[i + 1])
  }

  predicate CursorMoves(before: Cursor, after: Cursor) {
    after.At? ==> before.At? && before.k <= after.k <= before.k + 1
  }

  function CursorsOf(run: seq<State>): (cursors: seq<Cursor>)
    ensures |cursors| == |run| && forall i :: 0 <= i < |run| ==> cursors[i] == run[i].cursor
  {
    seq(|run|, i requires 0 <= i < |run| => run[i].cursor)
  }

  /** A cursor is saved only by the run that applies the event after it. */
  predicate AtControl(s: State) {
    s.control.Applying? ==> s.cursor == At(s.control.k)
  }

  lemma {:induction false} StepMovesCursor(s: State, a: Action, s': State, fetch: string -> Full)
    requires AtControl(s) && Step(s, a, s', fetch)
    ensures CursorMoves(s.cursor, s'.cursor)
  {
    match a {
      case WriteNext => assert s'.cursor == s.cursor;
      case _ =>
    }
  }

  lemma {:induction false} NextMovesCursor(s: State, s': State, fetch: string -> Full)
    requires AtControl(s) && Next(s, s', fetch)
    ensures CursorMoves(s.cursor, s'.cursor)
  {
    var a :| Step(s, a, s', fetch);
    StepMovesCursor(s, a, s', fetch);
  }

  lemma {:induction false} RunMovesCursor(run: seq<State>, fetch: string -> Full)
    requires IsRun(run, fetch)
    ensures CursorRun(CursorsOf(run))
  {
    forall i | 0 <= i < |run| - 1
      ensures CursorMoves(CursorsOf(run)[i], CursorsOf(run)[i + 1])
    {
      ApplyingAtCursor(run, i, fetch);
      assert Next(run[i], run[i + 1], fetch);
      NextMovesCursor(run[i], run[i + 1], fetch);
    }
  }

  lemma {:induction false} CursorsGrow(cursors: seq<Cursor>, i: nat, j: nat)
    requires CursorRun(cursors) && i <= j < |cursors| && cursors[j].At?
    ensures cursors[i].At? && cursors[i].k <= cursors[j].k
  {
    if i < j {
      assert CursorMoves(cursors[j - 1], cursors[j - 1 + 1]);
      CursorsGrow(cursors, i, j - 1);
    }
  }

  lemma {:induction false} CursorPassesEach(cursors: seq<Cursor>, i: nat, j: nat, k: nat)
    requires CursorRun(cursors) && i <= j < |cursors| && cursors[i].At? && cursors[j].At?
    requires cursors[i].k <= k <= cursors[j].k
    ensures exists m :: i <= m <= j && cursors[m] == At(k)
  {
    if cursors[j].k == k {
      assert cursors[j] == At(k);
    } else {
      assert CursorMoves(cursors[j - 1], cursors[j - 1 + 1]);
      CursorPassesEach(cursors, i, j - 1, k);
    }
  }

  lemma {:induction false} CursorNeverGoesBack(run: seq<State>, i: nat, j: nat, fetch: string -> Full)
    requires IsRun(run, fetch) && i <= j < |run| && run[j].cursor.At?
    ensures run[i].cursor.At? && run[i].cursor.k <= run[j].cursor.k
  {
    RunMovesCursor(run, fetch);
    CursorsGrow(CursorsOf(run), i, j);
  }

  lemma {:induction false} ApplyingAtCursor(run: seq<State>, i: nat, fetch: string -> Full)
    requires IsRun(run, fetch) && i < |run|
    ensures AtControl(run[i])
  {
    RunsKeepInv(run, i, fetch);
  }

  /** An event is begun only at the durable cursor, so only the one event after it is ever repeated. */
  lemma {:induction false} OnlyTheNextEventRepeats(run: seq<State>, i: nat, j: nat, fetch: string -> Full)
    requires IsRun(run, fetch) && i <= j < |run|
    requires run[i].control.Applying? && run[j].control.Applying?
    ensures run[i].control.k <= run[j].control.k
    ensures run[i].control.k < run[j].control.k ==>
              exists m :: i <= m <= j && run[m].cursor == At(run[i].control.k + 1)
  {
    ApplyingAtCursor(run, i, fetch);
    ApplyingAtCursor(run, j, fetch);
    RunMovesCursor(run, fetch);
    CursorsGrow(CursorsOf(run), i, j);
    if run[i].control.k < run[j].control.k {
      CursorPassesEach(CursorsOf(run), i, j, run[i].control.k + 1);
      var m :| i <= m <= j && CursorsOf(run)[m] == At(run[i].control.k + 1);
      assert run[m].cursor == At(run[i].control.k + 1);
    }
  }

  lemma {:induction false} TornStep(s: State, a: Action, s': State, fetch: string -> Full)
    requires s.cursor.Torn? && !s.control.Applying? && Step(s, a, s', fetch)
    ensures s'.cursor.Torn? && !s'.control.Applying? && s'.rows == s.rows
  {
  }

  /** A torn cursor file stops every later sync: no event is begun again. */
  lemma {:induction false} TornCursorStops(run: seq<State>, i: nat, j: nat, fetch: string -> Full)
    requires IsRun(run, fetch) && i <= j < |run| && run[i].cursor.Torn?
    ensures run[j].cursor.Torn? && !run[j].control.Applying? && run[j].rows == run[i].rows
  {
    if i < j {
      TornCursorStops(run, i, j - 1, fetch);
      assert Next(run[j - 1], run[j - 1 + 1], fetch);
      var a :| Step(run[j - 1], a, run[j], fetch);
      TornStep(run[j - 1], a, run[j], fetch);
    } else {
      RunsKeepInv(run, i, fetch);
    }
  }

  // ----- runs that are cut short -----

  /** The cursor may be torn while it is saved. */
  lemma {:induction false} CursorMayTear(fetch: string -> Full)
    ensures exists run: seq<State> :: IsRun(run, fetch) && run[|run| - 1].cursor.Torn?
  {
    var start := State([Changes([])], map[], At(0), Idle);
    var applying, torn := start.(control := Applying(0, 0)), start.(cursor := Torn);
    assert Step(start, Start, applying, fetch);
    assert Step(applying, SaveTorn, torn, fetch);
    var run := [start, applying, torn];
    assert Next(run[0], run[1], fetch) && Next(run[1], run[2], fetch);
    assert IsRun(run, fetch);
  }

  /** An event may be begun again after some of its writes were made. */
  lemma {:induction false} EventMayRepeat(fetch: string -> Full)
    ensures exists run: seq<State> ::
              && IsRun(run, fetch) && |run| == 6
              && run[2].control == Applying(0, 1) && run[3].control == Idle && run[5].control == Applying(0, 1)
  {
    var start := State([Refresh(["m"])], map[], At(0), Idle);
    assert Writes(start.log[0]) == [Put("m")] by {
      assert Puts(["m"]) == [Put("m")];
    }
    var begun := start.(control := Applying(0, 0));
    var written := begun.(rows := Apply(map[], Put("m"), fetch), control := Applying(0, 1));
    var crashed := written.(control := Idle);
    var again := crashed.(control := Applying(0, 0));
    var twice := again.(rows := Apply(crashed.rows, Put("m"), fetch), control := Applying(0, 1));
    assert Step(start, Start, begun, fetch) && Step(begun, WriteNext, written, fetch);
    assert Step(written, Crash, crashed, fetch);
    assert Step(crashed, Start, again, fetch) && Step(again, WriteNext, twice, fetch);
    var run := [start, begun, written, crashed, again, twice];
    assert IsRun(run, fetch);
  }

  // ----- the commands -----

  class EventSync {
    var rows: Rows
    var cursor: Cursor
    var cache: map<string, Full>

    constructor (rows: Rows)
      ensures this.rows == rows && cursor == At(0) && cache == map[]
    {
      this.rows, cursor, cache := rows, At(0), map[];
    }

    /** `fetch_event_message`: the cache answers before the server does, and keeps what the server said. */
    method FetchEventMessage(id: string, current: Full) returns (message: Full)
      modifies this`cache
      ensures id in cache && cache[id] == message
      ensures id in old(cache) ==> message == old(cache)[id] && cache == old(cache)
      ensures id !in old(cache) ==> message == current && cache == old(cache)[id := current]
    {
      if id in cache {
        return cache[id];
      }
      cache := cache[id := current];
      return current;
    }

    /**
     `sync_events`, which may be cut short anywhere; `server` is what the
     server answers meanwhile. Run to its end on a log it leaves the rows of
     the crash-free run on the messages fetched, whatever earlier runs were cut
     short.
     */
    method SyncEvents(
        ghost base: Rows, log: seq<Event>, server: string -> Full, ghost fetch: string -> Full, uninterrupted: bool)
      returns (finished: bool)
      requires Answers(fetch, cache, server)
      requires Steady(base, log, rows, cursor, cache, fetch)
      modifies this
      ensures Answers(fetch, cache, server) && Extends(old(cache), cache)
      ensures Steady(base, log, rows, cursor, cache, fetch)
      ensures old(cursor).Torn? ==> !finished && cursor == old(cursor) && rows == old(rows) && cache == old(cache)
      ensures cursor.At? ==> old(cursor).At? && old(cursor).k <= cursor.k
      ensures finished ==> cursor == At(|log|) && rows == Prefix(base, log, |log|, fetch)
      ensures uninterrupted && old(cursor).At? ==> finished
    {
      if cursor.Torn? {
        return false;
      }
      while cursor.k < |log|
        invariant cursor.At? && Steady(base, log, rows, cursor, cache, fetch)
        invariant Answers(fetch, cache, server) && Extends(old(cache), cache)
        invariant old(cursor).At? && old(cursor).k <= cursor.k
        decreases |log| - cursor.k
      {
        var saved := SyncOne(base, log, server, fetch, uninterrupted);
        if !saved {
          return false;
        }
      }
      return true;
    }

    /** The event after the cursor is applied, and only then the cursor saved. */
    method SyncOne(
        ghost base: Rows, log: seq<Event>, server: string -> Full, ghost fetch: string -> Full, uninterrupted: bool)
      returns (saved: bool)
      requires Answers(fetch, cache, server)
      requires cursor.At? && cursor.k < |log| && Steady(base, log, rows, cursor, cache, fetch)
      modifies this
      ensures Answers(fetch, cache, server) && Extends(old(cache), cache)
      ensures Steady(base, log, rows, cursor, cache, fetch)
      ensures cursor == old(cursor) || cursor == Torn || cursor == At(old(cursor).k + 1)
      ensures saved ==> cursor == At(old(cursor).k + 1)
      ensures uninterrupted ==> saved
    {
      var k := cursor.k;
      assert cursor == At(k);
      var applied := ApplyEvent(base, log, k, server, fetch, uninterrupted);
      assert cursor == At(k);
      if !applied {
        return false;
      }
      ghost var rows', cache' := rows, cache;
      saved := SaveCursor(k + 1, uninterrupted);
      assert rows == rows' && cache == cache';
      SteadyAtEither(base, log, rows', k, cursor, cache', fetch);
    }

    /** Rewrites the cursor file; it may be left as it was, or torn, or saved although the call fails. */
    method SaveCursor(k: nat, uninterrupted: bool) returns (saved: bool)
      modifies this`cursor
      ensures cursor == old(cursor) || cursor == Torn || cursor == At(k)
      ensures saved ==> cursor == At(k)
      ensures uninterrupted ==> saved
    {
      var unopened := Fails(uninterrupted);
      if unopened {
        return false;
      }
      var cut := Fails(uninterrupted);
      if cut {
        cursor := Torn;
        return false;
      }
      cursor := At(k);
      var unsynced := Fails(uninterrupted);
      return !unsynced;
    }

    /** Applies one event write by write; a crash or an error leaves the writes made so far. */
    method ApplyEvent(
        ghost base: Rows, log: seq<Event>, k: nat, server: string -> Full, ghost fetch: string -> Full,
        uninterrupted: bool)
      returns (applied: bool)
      requires Answers(fetch, cache, server)
      requires k < |log| && Steady(base, log, rows, At(k), cache, fetch)
      modifies this`rows, this`cache
      ensures Answers(fetch, cache, server) && Extends(old(cache), cache)
      ensures Steady(base, log, rows, At(k), cache, fetch)
      ensures applied ==> rows == Prefix(base, log, k + 1, fetch)
      ensures applied ==> Steady(base, log, rows, At(k + 1), cache, fetch)
      ensures uninterrupted ==> applied
    {
      var n := |Writes(log[k])|;
      EventStarts(base, log, rows, k, cache, fetch);
      for i := 0 to n
        invariant Answers(fetch, cache, server) && Extends(old(cache), cache)
        invariant AllCached(log, k, cache) && AppliedUpTo(base, log, rows, k, i, cache, fetch)
      {
        var failed := Fails(uninterrupted);
        if failed {
          return false;
        }
        MakeNextWrite(base, log, k, i, server, fetch);
      }
      EventDone(base, log, rows, k, cache, fetch);
      return true;
    }

    /** The i-th write of event k. */
    method MakeNextWrite(
        ghost base: Rows, log: seq<Event>, k: nat, i: nat, server: string -> Full, ghost fetch: string -> Full)
      requires k < |log| && i < |Writes(log[k])|
      requires Answers(fetch, cache, server) && AllCached(log, k, cache)
      requires AppliedUpTo(base, log, rows, k, i, cache, fetch)
      modifies this`rows, this`cache
      ensures Answers(fetch, cache, server) && Extends(old(cache), cache)
      ensures AllCached(log, k, cache) && AppliedUpTo(base, log, rows, k, i + 1, cache, fetch)
    {
      WriteKeepsApplied(base, log, rows, k, i, cache, fetch);
      MakeWrite(Writes(log[k])[i], server, fetch);
      MoreCached(base, log, rows, k, i, old(cache), cache, fetch);
    }

    /** One write: a message to be stored comes from the cache or, once, from the server. */
    method MakeWrite(w: Write, server: string -> Full, ghost fetch: string -> Full)
      requires Answers(fetch, cache, server)
      modifies this`rows, this`cache
      ensures Answers(fetch, cache, server) && Extends(old(cache), cache)
      ensures rows == Apply(old(rows), w, fetch)
      ensures w.Put? ==> w.id in cache
    {
      match w {
        case MarkDeleted(id) =>
          rows := Apply(rows, w, server);
        case Put(id) =>
          var message := FetchEventMessage(id, server(id));
          rows := rows[id := Row(message, false)];
      }
    }
  }

  /** What is fetched for an id from now on: the cached message, and else what the server says. */
  ghost predicate Answers(fetch: string -> Full, cache: map<string, Full>, server: string -> Full) {
    forall id :: fetch(id) == if id in cache then cache[id] else server(id)
  }

  ghost predicate Extends(cache: map<string, Full>, cache': map<string, Full>) {
    forall id :: id in cache ==> id in cache' && cache'[id] == cache[id]
  }

  ghost predicate AllOf(events: seq<Event>, p: Event -> bool) {
    forall e :: e in events ==> p(e)
  }

  ghost function IsCached(cache: map<string, Full>): Event -> bool {
    (event: Event) => PutsCached(Writes(event), cache)
  }

  lemma {:induction false} AllOfOneMore(log: seq<Event>, k: nat, p: Event -> bool)
    requires k < |log| && AllOf(log[..k], p) && p(log[k])
    ensures AllOf(log[..k + 1], p)
  {
    assert log[..k + 1] == log[..k] + [log[k]];
  }

  lemma {:induction false} AllOfImplies(events: seq<Event>, p: Event -> bool, q: Event -> bool)
    requires AllOf(events, p) && forall e :: p(e) ==> q(e)
    ensures AllOf(events, q)
  {
  }

  ghost predicate PutsCached(writes: seq<Write>, cache: map<string, Full>) {
    forall w :: w in writes && w.Put? ==> w.id in cache
  }

  /** Every message that the first k events store is in the cache. */
  ghost predicate AllCached(log: seq<Event>, k: nat, cache: map<string, Full>) {
    k <= |log| && AllOf(log[..k], IsCached(cache))
  }

  /** The rows are right for the cursor, and what it has passed is in the cache. */
  ghost predicate Steady(
      base: Rows, log: seq<Event>, rows: Rows, cursor: Cursor, cache: map<string, Full>, fetch: string -> Full)
  {
    cursor.At? ==> Consistent(base, log, rows, cursor.k, fetch) && AllCached(log, cursor.k, cache)
  }

  lemma {:induction false} SteadyAtEither(
      base: Rows, log: seq<Event>, rows: Rows, k: nat, cursor: Cursor, cache: map<string, Full>, fetch: string -> Full)
    requires Steady(base, log, rows, At(k), cache, fetch) && Steady(base, log, rows, At(k + 1), cache, fetch)
    requires cursor == At(k) || cursor == Torn || cursor == At(k + 1)
    ensures Steady(base, log, rows, cursor, cache, fetch)
  {
  }

  /** Event k has been applied up to its i-th write, and what it stored is in the cache. */
  ghost predicate AppliedUpTo(
      base: Rows, log: seq<Event>, rows: Rows, k: nat, i: nat, cache: map<string, Full>, fetch: string -> Full)
    requires k < |log| && i <= |Writes(log[k])|
  {
    && Consistent(base, log, rows, k, fetch)
    && ApplyAll(rows, Writes(log[k])[i..], fetch) == Prefix(base, log, k + 1, fetch)
    && PutsCached(Writes(log[k])[..i], cache)
  }

  lemma {:induction false} EventStarts(
      base: Rows, log: seq<Event>, rows: Rows, k: nat, cache: map<string, Full>, fetch: string -> Full)
    requires k < |log| && Consistent(base, log, rows, k, fetch)
    ensures AppliedUpTo(base, log, rows, k, 0, cache, fetch)
  {
    assert Writes(log[k])[0..] == Writes(log[k]);
  }

  lemma {:induction false} EventDone(
      base: Rows, log: seq<Event>, rows: Rows, k: nat, cache: map<string, Full>, fetch: string -> Full)
    requires k < |log| && AppliedUpTo(base, log, rows, k, |Writes(log[k])|, cache, fetch) && AllCached(log, k, cache)
    ensures rows == Prefix(base, log, k + 1, fetch)
    ensures Consistent(base, log, rows, k + 1, fetch) && AllCached(log, k + 1, cache)
  {
    var writes := Writes(log[k]);
    assert writes[..|writes|] == writes;
    NothingLeft(rows, writes, fetch);
    AllOfOneMore(log, k, IsCached(cache));
    PrefixIsConsistent(base, log, k + 1, fetch);
  }

  lemma {:induction false} NothingLeft(rows: Rows, writes: seq<Write>, fetch: string -> Full)
    ensures ApplyAll(rows, writes[|writes|..], fetch) == rows
  {
    assert writes[|writes|..] == [];
  }

  lemma {:induction false} StaysCached(
      log: seq<Event>, k: nat, before: map<string, Full>, cache: map<string, Full>)
    requires AllCached(log, k, before) && Extends(before, cache)
    ensures AllCached(log, k, cache)
  {
    forall e | IsCached(before)(e)
      ensures IsCached(cache)(e)
    {
      PutsStayCached(Writes(e), before, cache);
    }
    AllOfImplies(log[..k], IsCached(before), IsCached(cache));
  }

  lemma {:induction false} PutsStayCached(writes: seq<Write>, before: map<string, Full>, cache: map<string, Full>)
    requires PutsCached(writes, before) && Extends(before, cache)
    ensures PutsCached(writes, cache)
  {
  }

  lemma {:induction false} WriteKeepsApplied(
      base: Rows, log: seq<Event>, rows: Rows, k: nat, i: nat, cache: map<string, Full>, fetch: string -> Full)
    requires k < |log| && i < |Writes(log[k])| && AppliedUpTo(base, log, rows, k, i, cache, fetch)
    ensures
      var rows' := Apply(rows, Writes(log[k])[i], fetch);
      && Consistent(base, log, rows', k, fetch)
      && ApplyAll(rows', Writes(log[k])[i + 1..], fetch) == Prefix(base, log, k + 1, fetch)
  {
    var writes := Writes(log[k]);
    RepeatAbsorbed(rows, writes[i], writes, fetch);
    assert writes[i..][0] == writes[i] && writes[i..][1..] == writes[i + 1..];
    forall id | !Touches(log[k], id)
      ensures Look(Apply(rows, writes[i], fetch), id) == Look(rows, id)
    {
      assert writes[i].id != id;
    }
  }

  lemma {:induction false} MoreCached(
      base: Rows, log: seq<Event>, rows: Rows, k: nat, i: nat, before: map<string, Full>, cache: map<string, Full>,
      fetch: string -> Full)
    requires k < |log| && i < |Writes(log[k])| && Extends(before, cache) && AllCached(log, k, before)
    requires PutsCached(Writes(log[k])[..i], before)
    requires Writes(log[k])[i].Put? ==> Writes(log[k])[i].id in cache
    ensures AllCached(log, k, cache) && PutsCached(Writes(log[k])[..i + 1], cache)
  {
    StaysCached(log, k, before, cache);
    PutsStayCached(Writes(log[k])[..i], before, cache);
    PutsCachedOneMore(Writes(log[k]), i, cache);
  }

  lemma {:induction false} PutsCachedOneMore(writes: seq<Write>, i: nat, cache: map<string, Full>)
    requires i < |writes| && PutsCached(writes[..i], cache) && (writes[i].Put? ==> writes[i].id in cache)
    ensures PutsCached(writes[..i + 1], cache)
  {
    assert writes[..i + 1] == writes[..i] + [writes[i]];
  }
}
