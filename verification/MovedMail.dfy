/**
 A mail that is moved while other work on it is under way: a run in which the
 move is recorded by half, and one in which a flag mutation prepared before the
 move is reconciled after it.
 */
module MovedMail {
  import opened Basics
  import opened Storage
  import opened ImapServer
  import opened RemoteSafety
  import opened Convergence
  import opened RunSync
  import Sync

  // ----- a flag mutation reconciled after a move -----

  /** Reconciling a flag mutation writes back the role the row had when it was prepared. */
  lemma {:induction false} RowIsWrittenBack(s: System, m: Mutation, target: string, s': System)
    requires m.plan.Flag? && ReconcileStep(s, m, ReconcileRow(m, target), s')
    ensures m.id in s.archive.messages && m.id in s'.archive.messages
    ensures s'.archive.messages[m.id].localRole == m.entry.localRole
  {
  }

  /** And the binding it had. */
  lemma {:induction false} BindingIsWrittenBack(s: System, m: Mutation, s': System)
    requires m.plan.Flag? && ReconcileStep(s, m, ReconcileBinding(m), s')
    ensures m.id in s'.archive.bindings && s'.archive.bindings[m.id] == Binding(m.remote, false)
  {
  }

  predicate IsBoundTo(s: System, id: MessageId, remote: Remote) {
    id in s.archive.bindings && s.archive.bindings[id].remote == remote
  }

  /**
   A flag mutation is prepared at i, its row reconciled at j and its binding at
   l, whatever happens in between, a move included. Role and binding end as
   they were at i; so reconciling leaves them as they are if and only if nobody
   has changed them since.
   */
  lemma {:induction false} FlagMutationUndoesMoveIff(
      run: seq<System>, i: nat, j: nat, l: nat, id: MessageId, mutation: FlagMutation, target: string,
      parse: Bytes -> Option<string>)
    requires IsRun(run, parse) && i < j < l && l + 1 < |run|
    requires Step(run[i], Prepare(id, Flag(mutation)), run[i + 1], parse)
    requires var m := PreparedFor(run[i].archive, id, Flag(mutation));
             && Step(run[j], ReconcileRow(m.(stage := Selected(1)), target), run[j + 1], parse)
             && Step(run[l], ReconcileBinding(m.(stage := RowReconciled)), run[l + 1], parse)
    ensures id in run[j].archive.messages && id in run[j + 1].archive.messages && id in run[l + 1].archive.bindings
    ensures run[j + 1].archive.messages[id].localRole == run[i].archive.messages[id].localRole
    ensures run[l + 1].archive.bindings[id].remote == run[i].archive.bindings[id].remote
    ensures run[j + 1].archive.messages[id].localRole == run[j].archive.messages[id].localRole <==>
              run[j].archive.messages[id].localRole == run[i].archive.messages[id].localRole
    ensures IsBoundTo(run[l], id, run[l + 1].archive.bindings[id].remote) <==>
              IsBoundTo(run[l], id, run[i].archive.bindings[id].remote)
  {
    var m := PreparedFor(run[i].archive, id, Flag(mutation));
    RowIsWrittenBack(run[j], m.(stage := Selected(1)), target, run[j + 1]);
    BindingIsWrittenBack(run[l], m.(stage := RowReconciled), run[l + 1]);
  }

  // ----- steps of a run -----

  function WithMutation(s: System, m: Mutation): System {
    s.(mutations := s.mutations + {m})
  }

  lemma {:induction false} CanList(s: System, l: Listed, parse: Bytes -> Option<string>)
    requires CurrentListing(s, l.mailbox, {l.message})
    ensures Next(s, s.(listed := s.listed + {l}), parse)
  {
    assert (set m | m in {l.message} :: Listed(l.mailbox, m)) == {l};
    assert Step(s, List(l.mailbox, {l.message}), s.(listed := s.listed + {l}), parse);
  }

  lemma {:induction false} CanFetch(s: System, f: Fetched, parse: Bytes -> Option<string>)
    requires Fetches(s, f, s.(fetched := s.fetched + {f}))
    ensures Next(s, s.(fetched := s.fetched + {f}), parse)
  {
    assert Step(s, Fetch(f.listed, f.mode), s.(fetched := s.fetched + {f}), parse);
  }

  lemma {:induction false} CanPrepare(s: System, id: MessageId, plan: Plan, parse: Bytes -> Option<string>)
    requires id in s.archive.messages && !s.archive.messages[id].deleted && id in s.archive.bindings
    ensures Next(s, WithMutation(s, PreparedFor(s.archive, id, plan)), parse)
  {
    assert Step(s, Prepare(id, plan), WithMutation(s, PreparedFor(s.archive, id, plan)), parse);
  }

  lemma {:induction false} CanSelect(s: System, m: Mutation, parse: Bytes -> Option<string>)
    requires m in s.mutations && m.stage.Prepared? && SessionAlive(s, m)
    ensures Next(s, WithMutation(s, m.(stage := Selected(0))), parse)
  {
    assert Step(s, Select(m), WithMutation(s, m.(stage := Selected(0))), parse);
  }

  function Commanded(s: System, m: Mutation, server: Server): System
    requires m.stage.Selected?
  {
    s.(server := server, history := s.history + Places(s.account, server),
       mutations := s.mutations + {m.(stage := Selected(m.stage.acknowledged + 1))})
  }

  lemma {:induction false} CanCommand(s: System, m: Mutation, server: Server, parse: Bytes -> Option<string>)
    requires m in s.mutations && m.stage == Selected(0) && SessionAlive(s, m)
    requires Exec(s.server, m.remote.mailbox, m.remote.uid, Commands(m.plan)[0]) == Ok(server)
    ensures Next(s, Commanded(s, m, server), parse)
  {
    assert CommandStep(s, m, Commanded(s, m, server));
    assert Step(s, Command(m), Commanded(s, m, server), parse);
  }

  function RowWritten(s: System, m: Mutation, target: string): System
    requires m.id in s.archive.messages
  {
    var row := s.archive.messages[m.id];
    WithMutation(
      s.(archive := s.archive.(messages := s.archive.messages[m.id :=
           row.(localRole := m.RoleAfter(target), readState := m.ReadAfter(), starred := m.StarredAfter())])),
      m.(stage := RowReconciled))
  }

  lemma {:induction false} CanReconcileRow(s: System, m: Mutation, target: string, parse: Bytes -> Option<string>)
    requires m in s.mutations && m.Executed() && !m.plan.HardExpunge?
    requires m.id in s.archive.messages && !s.archive.messages[m.id].deleted
    requires s.archive.messages[m.id].account == s.account
    ensures Next(s, RowWritten(s, m, target), parse)
  {
    assert ReconcileStep(s, m, ReconcileRow(m, target), RowWritten(s, m, target));
    assert Step(s, ReconcileRow(m, target), RowWritten(s, m, target), parse);
  }

  function Cleared(s: System, id: MessageId): System {
    s.(archive := s.archive.(bindings := s.archive.bindings - {id}))
  }

  lemma {:induction false} CanClear(s: System, m: Mutation, parse: Bytes -> Option<string>)
    requires m in s.mutations && m.stage.RowReconciled? && !m.plan.Flag?
    ensures Next(s, Cleared(s, m.id), parse)
  {
    assert Step(s, ReconcileBinding(m), Cleared(s, m.id), parse);
  }

  function Rebound(s: System, m: Mutation): System {
    s.(archive := s.archive.(bindings := s.archive.bindings[m.id := Binding(m.remote, false)]))
  }

  lemma {:induction false} CanRebind(s: System, m: Mutation, parse: Bytes -> Option<string>)
    requires m in s.mutations && m.stage.RowReconciled? && m.plan.Flag?
    requires m.id in s.archive.messages && !BoundElsewhere(s.archive, m.id, m.remote)
    ensures Next(s, Rebound(s, m), parse)
  {
    assert Step(s, ReconcileBinding(m), Rebound(s, m), parse);
  }

  // ----- the run -----

  const MAIL := Content([], [1])
  const LONGER := Content([], [2, 2])
  const BEFORE: Server := map[
    "INBOX" := Mailbox(1, 2, map[1 := Mail(MAIL, {})]), "Archive" := Mailbox(1, 2, map[1 := Mail(LONGER, {})])]
  const AFTER: Server := map[
    "INBOX" := Mailbox(1, 2, map[]), "Archive" := Mailbox(1, 3, map[1 := Mail(LONGER, {}), 2 := Mail(MAIL, {})])]

  const IN_INBOX := Remote("a", "INBOX", 1, 1)
  const SEEN_LISTED := Listed("INBOX", Sync.RemoteMessage(1, Some(1), 1, None, false, false))
  const GOT := Fetched(SEEN_LISTED, IN_INBOX, MAIL, Full)
  const ASKED := Request("a", "inbox", false, false, None, "remote_uid:1", Some(IN_INBOX))
  const ID: MessageId := RemoteBound("a", "inbox", Digest([1]), "INBOX", 1, 1)
  const ENTRY := Message("a", Digest([1]), "inbox", false, false, false)
  const HELD := Archive(
    map[Digest([1]) := [1]], map[Digest([1]) := None], map[ID := ENTRY], map[ID := Binding(IN_INBOX, false)])
  const MOVE := Mutation(ID, IN_INBOX, ENTRY, Move("Archive", UidMove), Prepared)
  const FLAG := Mutation(ID, IN_INBOX, ENTRY, Flag(Read), Prepared)

  function AtStage(m: Mutation, stage: Stage): Mutation {
    m.(stage := stage)
  }

  function Begun(): System {
    System("a", BEFORE, Places("a", BEFORE), EMPTY, {}, {}, map[], {})
  }

  function Holding(): System {
    System("a", BEFORE, Places("a", BEFORE), HELD, {SEEN_LISTED}, {GOT}, map[ID := GOT], {})
  }

  lemma {:induction false} GotData()
    ensures GOT.Data() == [1]
  {
    assert [] + [1 as bv8] == [1];
  }

  lemma {:induction false} IngestsMail()
    ensures Admits(EMPTY, ASKED, [1])
    ensures Storage.Ingest(EMPTY, ASKED, [1], NoMessageId) == HELD
    ensures IngestMessageId(ASKED, Digest([1])) == ID
  {
  }

  lemma {:induction false} RequestsMail(s: System)
    requires s.account == "a"
    ensures IngestRequest(s, GOT, "inbox") == ASKED
  {
    AskedSeed();
  }

  lemma {:induction false} StoresMail()
    ensures Next(Begun().(listed := {SEEN_LISTED}, fetched := {GOT}), Holding(), NoMessageId)
  {
    var s := Begun().(listed := {SEEN_LISTED}, fetched := {GOT});
    GotData();
    IngestsMail();
    RequestsMail(s);
    CanStore(s, GOT, "inbox", Holding(), NoMessageId);
  }

  lemma {:induction false} CanStore(
      s: System, f: Fetched, localRole: string, s': System, parse: Bytes -> Option<string>)
    requires f in s.fetched && RemoteSafety.Stored(s, f, localRole, s', parse)
    ensures Next(s, s', parse)
  {
    assert Step(s, Ingest(f, localRole), s', parse);
  }

  lemma {:induction false} AskedSeed()
    ensures "remote_uid:" + Sync.Decimal.Print(1) == "remote_uid:1"
  {
  }

  lemma {:induction false} BegunIsInitial()
    ensures Initial(Begun())
  {
  }

  lemma {:induction false} ListsMail()
    ensures Next(Begun(), Begun().(listed := {SEEN_LISTED}), NoMessageId)
  {
    CanList(Begun(), SEEN_LISTED, NoMessageId);
    assert Begun().listed + {SEEN_LISTED} == {SEEN_LISTED};
  }

  lemma {:induction false} FetchesMail()
    ensures Next(Begun().(listed := {SEEN_LISTED}), Begun().(listed := {SEEN_LISTED}, fetched := {GOT}), NoMessageId)
  {
    var listed := Begun().(listed := {SEEN_LISTED});
    assert listed.fetched + {GOT} == {GOT};
    CanFetch(listed, GOT, NoMessageId);
  }

  lemma {:induction false} ReachedInFour(
      s0: System, s1: System, s2: System, s3: System, parse: Bytes -> Option<string>)
    requires Initial(s0) && Next(s0, s1, parse) && Next(s1, s2, parse) && Next(s2, s3, parse)
    ensures Reached(s3, parse)
  {
    StartIsReached(s0, parse);
    ReachedNext(s0, s1, parse);
    ReachedNext(s1, s2, parse);
    ReachedNext(s2, s3, parse);
  }

  lemma {:induction false} HoldingIsReached()
    ensures Reached(Holding(), NoMessageId)
  {
    BegunIsInitial();
    ListsMail();
    FetchesMail();
    StoresMail();
    ReachedInFour(
      Begun(), Begun().(listed := {SEEN_LISTED}), Begun().(listed := {SEEN_LISTED}, fetched := {GOT}), Holding(),
      NoMessageId);
  }

  /** Both mutations are prepared, and the move is selected. */
  function Planned(): System {
    WithMutation(WithMutation(WithMutation(Holding(), FLAG), MOVE), AtStage(MOVE, Selected(0)))
  }

  lemma {:induction false} PlannedIsReached()
    ensures Reached(Planned(), NoMessageId)
  {
    HoldingIsReached();
    CanPrepare(Holding(), ID, Flag(Read), NoMessageId);
    var flagged := WithMutation(Holding(), FLAG);
    ReachedNext(Holding(), flagged, NoMessageId);
    CanPrepare(flagged, ID, Move("Archive", UidMove), NoMessageId);
    var both := WithMutation(flagged, MOVE);
    ReachedNext(flagged, both, NoMessageId);
    CanSelect(both, MOVE, NoMessageId);
    ReachedNext(both, Planned(), NoMessageId);
  }

  lemma {:induction false} ServerMovesMail()
    ensures Exec(BEFORE, "INBOX", 1, MoveTo("Archive")) == Ok(AFTER)
  {
    assert "INBOX"[0] != "Archive"[0];
    var appended := Append(BEFORE, "Archive", Mail(MAIL, {}));
    assert BEFORE["Archive"].mails[2 := Mail(MAIL, {})] == AFTER["Archive"].mails;
    assert appended["INBOX"].mails - {1} == map[];
    assert Remove(appended, "INBOX", 1) == AFTER;
  }

  function Moved(): System {
    Commanded(Planned(), AtStage(MOVE, Selected(0)), AFTER)
  }

  /** The archive when the row has its new role and its binding is not yet cleared. */
  const HALF := HELD.(messages := HELD.messages[ID := ENTRY.(localRole := "archive")])

  /** The mail is moved, and the move is recorded by half. */
  ghost predicate HalfRecorded(s: System) {
    && s.account == "a" && s.server == AFTER && s.archive == HALF && s.fetched == {GOT}
    && FLAG in s.mutations && AtStage(MOVE, RowReconciled) in s.mutations
  }

  lemma {:induction false} MovedIsReached()
    ensures Reached(Moved(), NoMessageId)
  {
    PlannedIsReached();
    ServerMovesMail();
    CanCommand(Planned(), AtStage(MOVE, Selected(0)), AFTER, NoMessageId);
    ReachedNext(Planned(), Moved(), NoMessageId);
  }

  lemma {:induction false} HalfRecordedIsReached()
    ensures exists s :: Reached(s, NoMessageId) && HalfRecorded(s)
  {
    MovedIsReached();
    MovedFacts();
    RecordsHalf(Moved());
  }

  lemma {:induction false} MovedFacts()
    ensures Moved().account == "a" && Moved().server == AFTER && Moved().fetched == {GOT}
    ensures Moved().archive == HELD
    ensures FLAG in Moved().mutations && AtStage(MOVE, Selected(1)) in Moved().mutations
  {
  }

  lemma {:induction false} RecordsHalf(s: System)
    requires Reached(s, NoMessageId) && s.account == "a" && s.server == AFTER && s.fetched == {GOT}
    requires s.archive == HELD && FLAG in s.mutations && AtStage(MOVE, Selected(1)) in s.mutations
    ensures exists s' :: Reached(s', NoMessageId) && HalfRecorded(s')
  {
    MoveIsExecuted();
    CanReconcileRow(s, AtStage(MOVE, Selected(1)), "archive", NoMessageId);
    ReachedNext(s, RowWritten(s, AtStage(MOVE, Selected(1)), "archive"), NoMessageId);
    WritesHalf(s);
  }

  lemma {:induction false} MoveIsExecuted()
    ensures AtStage(MOVE, Selected(1)).Executed()
  {
    assert |Commands(MOVE.plan)| == 1;
  }

  lemma {:induction false} WritesHalf(s: System)
    requires s.account == "a" && s.server == AFTER && s.fetched == {GOT}
    requires s.archive == HELD && FLAG in s.mutations && AtStage(MOVE, Selected(1)) in s.mutations
    ensures HalfRecorded(RowWritten(s, AtStage(MOVE, Selected(1)), "archive"))
  {
    var m := AtStage(MOVE, Selected(1));
    var s' := RowWritten(s, m, "archive");
    assert m.RoleAfter("archive") == "archive" && !m.ReadAfter() && !m.StarredAfter();
    assert HELD.messages[ID] == ENTRY;
    assert s'.archive == HALF;
  }

  // ----- the folder it was moved to does not converge -----

  const ARCHIVED: Sync.Folder := Sync.Folder("a", "Archive", "archive", Sync.LocalFolder)
  const FIRST := Sync.RemoteMessage(1, Some(1), 2, None, false, false)
  const SECOND := Sync.RemoteMessage(2, Some(1), 1, None, false, false)
  const LISTING: seq<Sync.RemoteMessage> := [FIRST, SECOND]

  function ArchiveBody(r: Sync.RemoteMessage): Bytes {
    if r.uid == 1 then [2, 2] else [1]
  }

  lemma {:induction false} ArchiveHolds()
    ensures IsCurrent(AFTER["Archive"], FIRST, ArchiveBody(FIRST))
    ensures IsCurrent(AFTER["Archive"], SECOND, ArchiveBody(SECOND))
  {
    assert [] + [1 as bv8] == [1] && [] + [2 as bv8, 2] == [2, 2];
  }

  lemma {:induction false} ListingIsFull()
    ensures Sync.FullListing(LISTING, ArchiveBody, NoMessageId)
  {
    assert FIRST.uid != SECOND.uid;
    assert forall r :: r in LISTING ==> r == FIRST || r == SECOND;
  }

  lemma {:induction false} ArchiveListing(s: System)
    requires HalfRecorded(s)
    ensures CurrentFullListing(s, "Archive", LISTING, ArchiveBody, NoMessageId) && FullMode(s)
  {
    ArchiveHolds();
    ListingIsFull();
    assert forall r :: r in LISTING ==> r == FIRST || r == SECOND;
  }

  lemma {:induction false} HalfIsStray(batch: seq<Sync.RemoteMessage>)
    ensures StrayRow(HALF, ARCHIVED, batch, FIRST, ID)
  {
    assert "INBOX"[0] != "Archive"[0];
    assert Rowed(HALF, ARCHIVED, FIRST, ID);
    assert !Indexed(HALF, ARCHIVED, FIRST);
  }

  lemma {:induction false} HalfAdmits(r: Sync.RemoteMessage)
    requires r.uidvalidity.Some?
    ensures Admits(HALF, Sync.StoreRequest(ARCHIVED, r), ArchiveBody(r))
  {
    assert "INBOX"[0] != "Archive"[0];
    assert HALF.bindings[ID].remote.mailbox != "Archive";
    assert forall id :: id in HALF.bindings ==> id == ID;
  }

  lemma {:induction false} ArchiveIsStored()
    requires Valid(HALF, NoMessageId)
    ensures Sync.StoreAll(HALF, ARCHIVED, LISTING, ArchiveBody, NoMessageId).Ok?
  {
    ListingIsFull();
    HalfAdmits(FIRST);
    HalfAdmits(SECOND);
    assert forall r :: r in LISTING ==> r == FIRST || r == SECOND;
    Sync.StoreSucceedsIffUnclaimed(HALF, ARCHIVED, LISTING, LISTING, ArchiveBody, NoMessageId);
  }

  /**
   At the end of a run in which a move is recorded by half, a full sync of the
   folder it was moved to stores all its mail, and some of it is missing again.
   */
  lemma {:induction false} HalfRecordedMoveUnsettles()
    ensures exists s ::
              && Reached(s, NoMessageId) && HalfRecorded(s)
              && CurrentFullListing(s, "Archive", LISTING, ArchiveBody, NoMessageId)
    ensures Sync.StoreAll(HALF, ARCHIVED, LISTING, ArchiveBody, NoMessageId).Ok?
    ensures !Converges(Sync.StoreAll(HALF, ARCHIVED, LISTING, ArchiveBody, NoMessageId).value, ARCHIVED, LISTING)
  {
    HalfRecordedIsReached();
    var s :| Reached(s, NoMessageId) && HalfRecorded(s);
    ArchiveListing(s);
    ReachedIsValid(s);
    ArchiveIsStored();
    UnsettledAfter(s);
  }

  lemma {:induction false} ReachedIsValid(s: System)
    requires Reached(s, NoMessageId)
    ensures Valid(s.archive, NoMessageId)
  {
    var run: seq<System> :| IsRun(run, NoMessageId) && run[|run| - 1] == s;
    RunsKeepInv(run, |run| - 1, NoMessageId);
  }

  lemma {:induction false} UnsettledAfter(s: System)
    requires Reached(s, NoMessageId) && HalfRecorded(s)
    requires Sync.StoreAll(HALF, ARCHIVED, LISTING, ArchiveBody, NoMessageId).Ok?
    ensures !Converges(Sync.StoreAll(HALF, ARCHIVED, LISTING, ArchiveBody, NoMessageId).value, ARCHIVED, LISTING)
  {
    var run: seq<System> :| IsRun(run, NoMessageId) && run[|run| - 1] == s;
    ArchiveListing(s);
    SomeListing(HALF, "archive");
    var order :| Sync.Lists(order, HALF, "archive");
    forall r | r in Sync.Missing(HALF, LISTING, ARCHIVED, order)
      ensures r in LISTING
    {
      MissingMeans(HALF, ARCHIVED, LISTING, order, r);
    }
    RunSyncConvergesIff(run, |run| - 1, ARCHIVED, LISTING, LISTING, order, ArchiveBody, NoMessageId);
    HalfIsStray(LISTING);
    assert FIRST in LISTING;
  }

  // ----- the flag mutation is reconciled after the move -----

  /** The move is recorded in full: the row has its new role and no binding. */
  ghost predicate Recorded(s: System) {
    && s.account == "a" && s.server == AFTER && s.archive == HALF.(bindings := map[]) && FLAG in s.mutations
  }

  lemma {:induction false} RecordedIsReached()
    ensures exists s :: Reached(s, NoMessageId) && Recorded(s)
  {
    HalfRecordedIsReached();
    var s :| Reached(s, NoMessageId) && HalfRecorded(s);
    CanClear(s, AtStage(MOVE, RowReconciled), NoMessageId);
    ReachedNext(s, Cleared(s, ID), NoMessageId);
    ClearsHalf(s);
  }

  lemma {:induction false} ClearsHalf(s: System)
    requires HalfRecorded(s)
    ensures Recorded(Cleared(s, ID))
  {
    assert HALF.bindings - {ID} == map[];
  }

  /** The flag command finds no mail, and that is no error. */
  lemma {:induction false} FlagFindsNothing()
    ensures Exec(AFTER, "INBOX", 1, Commands(Flag(Read))[0]) == Ok(AFTER)
  {
  }

  /** The system can go on from `s` to `s'`. */
  ghost predicate LeadsTo(s: System, s': System, parse: Bytes -> Option<string>) {
    exists path: seq<System> ::
      && path != [] && path[0] == s && path[|path| - 1] == s'
      && forall i :: 0 <= i < |path| - 1 ==> Next(path[i], path[i + 1], parse)
  }

  lemma {:induction false} LeadsNext(s: System, s': System, s'': System, parse: Bytes -> Option<string>)
    requires LeadsTo(s, s', parse) && Next(s', s'', parse)
    ensures LeadsTo(s, s'', parse)
  {
    var path: seq<System> :| path != [] && path[0] == s && path[|path| - 1] == s' &&
      forall i :: 0 <= i < |path| - 1 ==> Next(path[i], path[i + 1], parse);
    var longer := path + [s''];
    forall i | 0 <= i < |longer| - 1
      ensures Next(longer[i], longer[i + 1], parse)
    {
      if i < |path| - 1 {
        assert longer[i] == path[i] && longer[i + 1] == path[i + 1];
      }
    }
    assert longer[|longer| - 1] == s'';
  }

  lemma {:induction false} LeadsHere(s: System, parse: Bytes -> Option<string>)
    ensures LeadsTo(s, s, parse)
  {
    assert [s][0] == s && [s][|[s]| - 1] == s;
  }

  lemma {:induction false} FlagIsReached(s: System) returns (s': System)
    requires Recorded(s)
    ensures LeadsTo(s, s', NoMessageId) && s'.account == "a" && s'.server == AFTER && s'.archive == s.archive
    ensures AtStage(FLAG, Selected(1)) in s'.mutations
  {
    LeadsHere(s, NoMessageId);
    CanSelect(s, FLAG, NoMessageId);
    var selected := WithMutation(s, AtStage(FLAG, Selected(0)));
    LeadsNext(s, s, selected, NoMessageId);
    FlagFindsNothing();
    CanCommand(selected, AtStage(FLAG, Selected(0)), AFTER, NoMessageId);
    s' := Commanded(selected, AtStage(FLAG, Selected(0)), AFTER);
    LeadsNext(s, selected, s', NoMessageId);
  }

  /** The archive has the mail back in the inbox, bound to a UID that is gone. */
  ghost predicate MovedBack(s: System) {
    && ID in s.archive.messages && s.archive.messages[ID].localRole == "inbox"
    && ID in s.archive.bindings && s.archive.bindings[ID].remote == IN_INBOX && !Present(s.server, IN_INBOX)
  }

  lemma {:induction false} FlagMovesBack(s0: System, s: System) returns (s': System)
    requires LeadsTo(s0, s, NoMessageId) && s.account == "a" && s.server == AFTER
    requires s.archive == HALF.(bindings := map[]) && AtStage(FLAG, Selected(1)) in s.mutations
    ensures LeadsTo(s0, s', NoMessageId) && MovedBack(s')
  {
    var m := AtStage(FLAG, Selected(1));
    CanReconcileRow(s, m, "", NoMessageId);
    var written := RowWritten(s, m, "");
    LeadsNext(s0, s, written, NoMessageId);
    CanRebind(written, AtStage(FLAG, RowReconciled), NoMessageId);
    s' := Rebound(written, AtStage(FLAG, RowReconciled));
    LeadsNext(s0, written, s', NoMessageId);
  }

  /**
   A flag mutation prepared before a move undoes the record of it: once the
   move is recorded in full, the run can go on until the archive has the mail
   back in the inbox.
   */
  lemma {:induction false} RecordedMoveMayBeUndone()
    ensures exists s, s' :: Reached(s, NoMessageId) && Recorded(s) && LeadsTo(s, s', NoMessageId) && MovedBack(s')
  {
    RecordedIsReached();
    var s :| Reached(s, NoMessageId) && Recorded(s);
    var flagged := FlagIsReached(s);
    var s' := FlagMovesBack(s, flagged);
  }
}
