/**
 Flags on both sides of a flag mutation. The catalog row is read when the
 mutation is prepared and written back when it is reconciled, so what happens to
 the other flag in between is lost on this side.
 */
module FlagMutations {
  import opened Basics
  import opened Storage
  import opened ImapServer
  import opened RemoteSafety
  import Sync

  /** The flag a mutation sets or clears, and the one it leaves alone. */
  function Touched(mutation: FlagMutation): Flag {
    if mutation.Read? || mutation.Unread? then Seen else Flagged
  }

  function Other(mutation: FlagMutation): Flag {
    if mutation.Read? || mutation.Unread? then Flagged else Seen
  }

  predicate HasFlag(server: Server, remote: Remote, flag: Flag)
    requires Present(server, remote)
  {
    flag in server[remote.mailbox].mails[remote.uid].flags
  }

  /** The row of a message and the mail it is bound to show the same state. */
  predicate Agrees(s: System, id: MessageId, remote: Remote) {
    && id in s.archive.messages && Present(s.server, remote)
    && (HasFlag(s.server, remote, Seen) <==> s.archive.messages[id].readState)
    && (HasFlag(s.server, remote, Flagged) <==> s.archive.messages[id].starred)
  }

  // ----- what the two sides record -----

  /** The command of a flag mutation sets or clears one flag and leaves the other. */
  lemma {:induction false} CommandSetsFlag(s: System, m: Mutation, s': System)
    requires CommandStep(s, m, s') && m.plan.Flag? && Present(s.server, m.remote)
    ensures Present(s'.server, m.remote)
    ensures HasFlag(s'.server, m.remote, Touched(m.plan.mutation)) <==>
              m.plan.mutation.Read? || m.plan.mutation.Starred?
    ensures HasFlag(s'.server, m.remote, Other(m.plan.mutation)) <==>
              HasFlag(s.server, m.remote, Other(m.plan.mutation))
  {
    assert Commands(m.plan)[0] == FlagCommand(m.plan.mutation);
  }

  /** Reconciliation writes the value the mutation sets, and the other flag as it was when it was prepared. */
  lemma {:induction false} ReconcileWrites(s: System, m: Mutation, target: string, s': System)
    requires m.plan.Flag? && ReconcileStep(s, m, ReconcileRow(m, target), s')
    ensures s'.server == s.server && m.id in s'.archive.messages
    ensures s'.archive.messages[m.id].readState == m.ReadAfter()
    ensures s'.archive.messages[m.id].starred == m.StarredAfter()
  {
  }

  /**
   A flag mutation is prepared at i when both sides agree, executed at k and
   reconciled at j. Both sides agree again if and only if the flag it touches
   has not changed on the server since k, nor the other flag since i: what
   others do to the other flag meanwhile is overwritten here.
   */
  lemma {:induction false} AgreeAfterReconcileIff(
      run: seq<System>, i: nat, k: nat, j: nat, id: MessageId, mutation: FlagMutation, target: string,
      parse: Bytes -> Option<string>)
    requires IsRun(run, parse) && i < k < j && j + 1 < |run|
    requires Step(run[i], Prepare(id, Flag(mutation)), run[i + 1], parse)
    requires var m := PreparedFor(run[i].archive, id, Flag(mutation));
             && Agrees(run[i], id, m.remote) && Present(run[j].server, m.remote)
             && Step(run[k], Command(m.(stage := Selected(0))), run[k + 1], parse)
             && Step(run[j], ReconcileRow(m.(stage := Selected(1)), target), run[j + 1], parse)
    ensures
      var remote := run[i].archive.bindings[id].remote;
      && Present(run[k + 1].server, remote)
      && (Agrees(run[j + 1], id, remote) <==>
            && HasFlag(run[j].server, remote, Touched(mutation)) ==
              HasFlag(run[k + 1].server, remote, Touched(mutation))
            && HasFlag(run[j].server, remote, Other(mutation)) == HasFlag(run[i].server, remote, Other(mutation)))
  {
    var m := PreparedFor(run[i].archive, id, Flag(mutation));
    RunRespects(run, parse);
    PresentBetween(ServersOf(run), i, k, j, m.remote);
    CommandSetsFlag(run[k], m.(stage := Selected(0)), run[k + 1]);
    ReconciledAgreesIff(run[i], m.(stage := Selected(1)), run[j], target, run[j + 1]);
  }

  /** Agreement after reconciling at `s'`, of a mutation prepared in agreement at `s`. */
  lemma {:induction false} ReconciledAgreesIff(s: System, m: Mutation, s': System, target: string, s'': System)
    requires m.plan.Flag? && Present(s.server, m.remote) && Present(s'.server, m.remote)
    requires HasFlag(s.server, m.remote, Seen) <==> m.entry.readState
    requires HasFlag(s.server, m.remote, Flagged) <==> m.entry.starred
    requires ReconcileStep(s', m, ReconcileRow(m, target), s'')
    ensures
      Agrees(s'', m.id, m.remote) <==>
        && HasFlag(s'.server, m.remote, Touched(m.plan.mutation)) == (m.plan.mutation.Read? || m.plan.mutation.Starred?)
        && HasFlag(s'.server, m.remote, Other(m.plan.mutation)) == HasFlag(s.server, m.remote, Other(m.plan.mutation))
  {
    ReconcileWrites(s', m, target, s'');
  }

  // ----- a star that is lost -----

  const PLACE := Remote("a", "INBOX", 1, 1)
  const TAKEN := Fetched(LISTED, PLACE, WANTED, Full)
  const STARRED := Sync.RemoteMessage(1, Some(1), 1, None, true, true)

  function ServerWith(flags: set<Flag>): Server {
    map["INBOX" := Mailbox(1, 2, map[1 := Mail(WANTED, flags)])]
  }

  function Request(): Storage.Request {
    IngestRequest(Listing(), TAKEN, "inbox")
  }

  function TheId(): MessageId {
    IngestMessageId(Request(), Digest(TAKEN.Data()))
  }

  function WithRow(parse: Bytes -> Option<string>): System {
    Listing().(fetched := {TAKEN}, archive := Storage.Ingest(EMPTY, Request(), TAKEN.Data(), parse),
      taken := map[TheId() := TAKEN])
  }

  function Reading(stage: Stage): Mutation {
    Mutation(TheId(), PLACE, Message("a", Digest(TAKEN.Data()), "inbox", false, false, false), Flag(Read), stage)
  }

  function Chosen(parse: Bytes -> Option<string>): System {
    WithRow(parse).(mutations := {Reading(Prepared), Reading(Selected(0))})
  }

  function Marked(parse: Bytes -> Option<string>, flags: set<Flag>): System {
    WithRow(parse).(server := ServerWith(flags),
                 mutations := {Reading(Prepared), Reading(Selected(0)), Reading(Selected(1))})
  }

  /** The row of the mail with other flags. */
  function WithState(s: System, readState: bool, starred: bool): System
    requires TheId() in s.archive.messages
  {
    s.(archive := s.archive.(messages :=
         s.archive.messages[TheId() := s.archive.messages[TheId()].(readState := readState, starred := starred)]))
  }

  lemma {:induction false} PlacesOf(flags: set<Flag>)
    ensures Places("a", ServerWith(flags)) == map[PLACE := WANTED]
  {
    var server := ServerWith(flags);
    assert "INBOX" in server && 1 in server["INBOX"].mails;
    assert Remote("a", "INBOX", server["INBOX"].uidvalidity, 1) in PlaceSet("a", server);
    assert PlaceSet("a", server) == {PLACE};
  }

  lemma {:induction false} FetchesIt(parse: Bytes -> Option<string>)
    ensures Next(Listing(), Listing().(fetched := {TAKEN}), parse)
  {
    assert Listing().fetched + {TAKEN} == {TAKEN};
    assert FetchStep(Listing(), LISTED, Full, Listing().(fetched := {TAKEN}));
    assert Step(Listing(), Fetch(LISTED, Full), Listing().(fetched := {TAKEN}), parse);
  }

  lemma {:induction false} StoresIt(parse: Bytes -> Option<string>)
    ensures Next(Listing().(fetched := {TAKEN}), WithRow(parse), parse)
  {
    var fetched := Listing().(fetched := {TAKEN});
    assert IngestRequest(fetched, TAKEN, "inbox") == Request();
    assert Admits(EMPTY, Request(), TAKEN.Data());
    assert IngestStep(fetched, TAKEN, "inbox", WithRow(parse), parse);
    assert Step(fetched, Ingest(TAKEN, "inbox"), WithRow(parse), parse);
  }

  lemma {:induction false} RowIsReached(parse: Bytes -> Option<string>)
    ensures Reached(WithRow(parse), parse)
  {
    var empty := Listing().(listed := {});
    ListsThenReplaced(parse);
    StartIsReached(empty, parse);
    ReachedNext(empty, Listing(), parse);
    FetchesIt(parse);
    ReachedNext(Listing(), Listing().(fetched := {TAKEN}), parse);
    StoresIt(parse);
    ReachedNext(Listing().(fetched := {TAKEN}), WithRow(parse), parse);
  }

  lemma {:induction false} Prepares(parse: Bytes -> Option<string>)
    ensures Next(WithRow(parse), WithRow(parse).(mutations := {Reading(Prepared)}), parse)
  {
    assert PreparedFor(WithRow(parse).archive, TheId(), Flag(Read)) == Reading(Prepared);
    assert WithRow(parse).mutations + {Reading(Prepared)} == {Reading(Prepared)};
    assert Step(WithRow(parse), Prepare(TheId(), Flag(Read)), WithRow(parse).(mutations := {Reading(Prepared)}), parse);
  }

  lemma {:induction false} Selects(parse: Bytes -> Option<string>)
    ensures Next(WithRow(parse).(mutations := {Reading(Prepared)}), Chosen(parse), parse)
  {
    var prepared := WithRow(parse).(mutations := {Reading(Prepared)});
    assert prepared.mutations + {Reading(Selected(0))} == Chosen(parse).mutations;
    assert Step(prepared, Select(Reading(Prepared)), Chosen(parse), parse);
  }

  lemma {:induction false} ServerMarksRead()
    ensures Exec(ServerWith({}), "INBOX", 1, FlagCommand(Read)) == Ok(ServerWith({Seen}))
  {
    var server := ServerWith({});
    assert {} + {Seen} - {} == {Seen};
    assert server["INBOX"].mails[1 := Mail(WANTED, {Seen})] == map[1 := Mail(WANTED, {Seen})];
    assert server["INBOX" := Mailbox(1, 2, map[1 := Mail(WANTED, {Seen})])] == ServerWith({Seen});
  }

  lemma {:induction false} MarksRead(parse: Bytes -> Option<string>)
    ensures Next(Chosen(parse), Marked(parse, {Seen}), parse)
  {
    var chosen, read, m := Chosen(parse), Marked(parse, {Seen}), Reading(Selected(0));
    assert chosen.server == ServerWith({});
    PlacesOf({Seen});
    ServerMarksRead();
    MarkStep(chosen, m, read, parse);
  }

  lemma {:induction false} MarkStep(s: System, m: Mutation, s': System, parse: Bytes -> Option<string>)
    requires m == Reading(Selected(0)) && m in s.mutations && SessionAlive(s, m)
    requires Exec(s.server, "INBOX", 1, FlagCommand(Read)) == Ok(s'.server)
    requires s' == s.(server := s'.server, mutations := s'.mutations)
    requires s.history + Places(s.account, s'.server) == s.history
    requires s'.mutations == s.mutations + {Reading(Selected(1))}
    ensures Next(s, s', parse)
  {
    assert Commands(m.plan)[0] == FlagCommand(Read);
    assert CommandStep(s, m, s');
    assert Step(s, Command(m), s', parse);
  }

  lemma {:induction false} IsStarred(parse: Bytes -> Option<string>)
    ensures Next(Marked(parse, {Seen}), Marked(parse, {Seen, Flagged}), parse)
  {
    var read, starred := Marked(parse, {Seen}), Marked(parse, {Seen, Flagged});
    PlacesOf({Seen, Flagged});
    assert BoxRespects(read.server["INBOX"], starred.server["INBOX"]);
    assert starred.history == read.history + Places("a", starred.server);
    assert Step(read, ServerMoves(starred.server), starred, parse);
  }

  /** The mail is marked read on the server, and then starred by someone else. */
  lemma {:induction false} MarkedIsReached(parse: Bytes -> Option<string>)
    ensures Reached(Marked(parse, {Seen, Flagged}), parse)
  {
    RowIsReached(parse);
    Prepares(parse);
    ReachedNext(WithRow(parse), WithRow(parse).(mutations := {Reading(Prepared)}), parse);
    Selects(parse);
    ReachedNext(WithRow(parse).(mutations := {Reading(Prepared)}), Chosen(parse), parse);
    MarksRead(parse);
    ReachedNext(Chosen(parse), Marked(parse, {Seen}), parse);
    IsStarred(parse);
    ReachedNext(Marked(parse, {Seen}), Marked(parse, {Seen, Flagged}), parse);
  }

  lemma {:induction false} RefreshSeesTheStar(parse: Bytes -> Option<string>)
    ensures Step(Marked(parse, {Seen, Flagged}), RefreshFlags("INBOX", [STARRED]),
              WithState(Marked(parse, {Seen, Flagged}), true, true), parse)
  {
    var s := Marked(parse, {Seen, Flagged});
    var refreshed := Sync.Refreshed(s.archive, FolderOf(s, "INBOX", ""), [STARRED]);
    assert Sync.FirstUidvalidity([STARRED]) == Some(1);
    var marked := MarkStaleUidvalidity(s.archive, "a", "INBOX", 1);
    assert marked.bindings == s.archive.bindings;
    assert [STARRED][..0] == [];
    assert Sync.RefreshedFlags(marked, FolderOf(s, "INBOX", ""), [STARRED]) ==
           UpdateRemoteFlags(Sync.RefreshedFlags(marked, FolderOf(s, "INBOX", ""), []), PLACE, true, true);
    assert refreshed.messages == WithState(s, true, true).archive.messages;
  }

  lemma {:induction false} ReconcileClearsTheStar(s: System, parse: Bytes -> Option<string>)
    requires s.account == "a" && TheId() in s.archive.messages && Reading(Selected(1)) in s.mutations
    requires s.archive.messages[TheId()] == Message("a", Digest(TAKEN.Data()), "inbox", true, true, false)
    ensures
      var done := WithState(s, true, false).(mutations := s.mutations + {Reading(RowReconciled)});
      Next(s, done, parse)
  {
    var m := Reading(Selected(1));
    var done := WithState(s, true, false).(mutations := s.mutations + {Reading(RowReconciled)});
    assert UpdateLocalState(s.archive, "a", TheId(), "inbox", true, false) == Ok(done.archive);
    assert ReconcileStep(s, m, ReconcileRow(m, "inbox"), done);
    assert Step(s, ReconcileRow(m, "inbox"), done, parse);
  }

  function StarSeen(parse: Bytes -> Option<string>): System {
    WithState(Marked(parse, {Seen, Flagged}), true, true)
  }

  function StarLost(parse: Bytes -> Option<string>): System {
    var s := StarSeen(parse);
    WithState(s, true, false).(mutations := s.mutations + {Reading(RowReconciled)})
  }

  lemma {:induction false} StarSeenIsReached(parse: Bytes -> Option<string>)
    ensures Reached(StarSeen(parse), parse) && Next(StarSeen(parse), StarLost(parse), parse)
  {
    MarkedIsReached(parse);
    RefreshSeesTheStar(parse);
    ReachedNext(Marked(parse, {Seen, Flagged}), StarSeen(parse), parse);
    ReconcileClearsTheStar(StarSeen(parse), parse);
  }

  lemma {:induction false} OnlySeenAgrees(parse: Bytes -> Option<string>)
    ensures Agrees(StarSeen(parse), TheId(), PLACE) && !Agrees(StarLost(parse), TheId(), PLACE)
    ensures StarLost(parse).server == StarSeen(parse).server
  {
  }

  /** A star that a refresh had copied is overwritten, though it is still on the server. */
  lemma {:induction false} ReconcileMayLoseAStar(parse: Bytes -> Option<string>)
    ensures exists s, s' ::
              && Reached(s, parse) && Next(s, s', parse) && s'.server == s.server
              && Agrees(s, TheId(), PLACE) && !Agrees(s', TheId(), PLACE)
  {
    StarSeenIsReached(parse);
    OnlySeenAgrees(parse);
  }
}
