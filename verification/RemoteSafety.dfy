/**
 The whole system: the server, the archive, and every listing, download and
 mutation in flight, any number of each at once.

 An operation in flight stays available forever: a crash is an operation that
 never takes its next step, and one that is resumed late takes it after
 anything else has happened. The server may do whatever `Respects` allows,
 including replacing a mailbox under a new UIDVALIDITY at any time.
 */
module RemoteSafety {
  import opened Basics
  import opened Storage
  import opened ImapServer
  import Sync

  datatype FetchMode = Headers | Full

  /** A message of a listing of `mailbox`, as `find_missing` sees it. */
  datatype Listed = Listed(mailbox: string, message: Sync.RemoteMessage)

  /**
   Bytes a worker fetched for a listed message. `place` is where the server
   held them at the time, which the worker does not look at: its UIDVALIDITY
   may be newer than the listing's.
   */
  datatype Fetched = Fetched(listed: Listed, place: Remote, content: Content, mode: FetchMode) {
    function Data(): Bytes {
      if mode.Headers? then content.header else content.header + content.text
    }
  }

  /** Prepared, selected with so many commands acknowledged, or with the row already reconciled. */
  datatype Stage = Prepared | Selected(acknowledged: nat) | RowReconciled

  /** `entry` is the catalog row as it was when the mutation was prepared. */
  datatype Mutation = Mutation(id: MessageId, remote: Remote, entry: Message, plan: Plan, stage: Stage) {
    predicate Executed() {
      stage == Selected(|Commands(plan)|)
    }

    /** The read state and star that reconciliation writes: those of `entry`, updated by the mutation. */
    function ReadAfter(): bool {
      if plan.Flag? then UpdatedReadState(entry.readState, plan.mutation) else entry.readState
    }

    function StarredAfter(): bool {
      if plan.Flag? then UpdatedStarredState(entry.starred, plan.mutation) else entry.starred
    }

    /** A move goes to the role of its target folder. */
    function RoleAfter(target: string): string {
      if plan.Move? then target else entry.localRole
    }
  }

  /**
   `history` remembers what every place ever held, and `taken` which fetch
   each message id was last stored from.
   */
  datatype System = System(
    account: string,
    server: Server,
    history: map<Remote, Content>,
    archive: Archive,
    listed: set<Listed>,
    fetched: set<Fetched>,
    taken: map<MessageId, Fetched>,
    mutations: set<Mutation>)

  function Places(account: string, server: Server): map<Remote, Content> {
    map p: Remote | p in PlaceSet(account, server) :: server[p.mailbox].mails[p.uid].content
  }

  function PlaceSet(account: string, server: Server): set<Remote> {
    set box, uid | box in server && uid in server[box].mails :: Remote(account, box, server[box].uidvalidity, uid)
  }

  function FolderOf(s: System, mailbox: string, localRole: string): Sync.Folder {
    Sync.Folder(s.account, mailbox, localRole, Sync.LocalFolder)
  }

  datatype Action =
    | ServerMoves(server: Server)
    | List(mailbox: string, messages: set<Sync.RemoteMessage>)
    | RefreshFlags(mailbox: string, listing: seq<Sync.RemoteMessage>)
    | Fetch(listed: Listed, mode: FetchMode)
    | Ingest(fetched: Fetched, localRole: string)
    | Prepare(id: MessageId, plan: Plan)
    | Select(m: Mutation)
    | Command(m: Mutation)
    | ReconcileRow(m: Mutation, target: string)
    | ReconcileBinding(m: Mutation)
    | ReconcileRemoval(m: Mutation)

  /** The stored bytes and the request `store_message` makes of them. */
  function IngestRequest(s: System, f: Fetched, localRole: string): Request {
    Sync.StoreRequest(FolderOf(s, f.listed.mailbox, localRole), f.listed.message)
  }

  ghost predicate ServerStep(s: System, server: Server, s': System) {
    && Respects(s.server, server)
    && s' == s.(server := server, history := s.history + Places(s.account, server))
  }

  predicate CurrentListing(s: System, mailbox: string, messages: set<Sync.RemoteMessage>) {
    && mailbox in s.server
    && forall m :: m in messages ==>
         && m.uid in s.server[mailbox].mails
         && (m.uidvalidity == None || m.uidvalidity == Some(s.server[mailbox].uidvalidity))
  }

  /** A worker fetches by UID from whatever mailbox bears the name now. */
  ghost predicate FetchStep(s: System, l: Listed, mode: FetchMode, s': System) {
    && l in s.listed && l.mailbox in s.server && l.message.uid in s.server[l.mailbox].mails
    && var place := Remote(s.account, l.mailbox, s.server[l.mailbox].uidvalidity, l.message.uid);
       s' == s.(fetched := s.fetched + {Fetched(l, place, s.server[l.mailbox].mails[l.message.uid].content, mode)})
  }

  /** The process may die, or fail, when only the blob file is written. */
  ghost predicate IngestStep(s: System, f: Fetched, localRole: string, s': System, parse: Bytes -> Option<string>) {
    f in s.fetched && (s' == s.(archive := WithBlob(s.archive, f.Data())) || Stored(s, f, localRole, s', parse))
  }

  ghost predicate Stored(s: System, f: Fetched, localRole: string, s': System, parse: Bytes -> Option<string>) {
    var request := IngestRequest(s, f, localRole);
    s' == s.(archive := Storage.Ingest(s.archive, request, f.Data(), parse),
             taken := if request.remote.Some? && Admits(s.archive, request, f.Data())
                      then s.taken[IngestMessageId(request, Digest(f.Data())) := f] else s.taken)
  }

  ghost predicate CommandStep(s: System, m: Mutation, s': System) {
    && m in s.mutations && m.stage.Selected? && m.stage.acknowledged < |Commands(m.plan)|
    && SessionAlive(s, m)
    && Exec(s.server, m.remote.mailbox, m.remote.uid, Commands(m.plan)[m.stage.acknowledged]) == Ok(s'.server)
    && s' == s.(server := s'.server, history := s.history + Places(s.account, s'.server),
                mutations := s.mutations + {m.(stage := Selected(m.stage.acknowledged + 1))})
  }

  ghost predicate ReconcileStep(s: System, m: Mutation, a: Action, s': System) {
    match a
    case ReconcileRow(_, target) =>
      m.Executed() && !m.plan.HardExpunge? &&
      UpdateLocalState(s.archive, s.account, m.id, m.RoleAfter(target), m.ReadAfter(), m.StarredAfter())
      == Ok(s'.archive) &&
      s' == s.(archive := s'.archive, mutations := s.mutations + {m.(stage := RowReconciled)})
    case ReconcileBinding(_) =>
      m.stage.RowReconciled? &&
      UpdateRemoteBinding(s.archive, m.id, if m.plan.Flag? then Some(m.remote) else None) == Ok(s'.archive) &&
      s' == s.(archive := s'.archive)
    case ReconcileRemoval(_) =>
      m.Executed() && m.plan.HardExpunge? &&
      RemoveEntry(s.archive, s.account, m.id) == Ok(s'.archive) &&
      s' == s.(archive := s'.archive)
    case _ =>
      false
  }

  ghost predicate Step(s: System, a: Action, s': System, parse: Bytes -> Option<string>) {
    match a
    case ServerMoves(server) => ServerStep(s, server, s')
    case List(mailbox, messages) =>
      CurrentListing(s, mailbox, messages) &&
      s' == s.(listed := s.listed + set m | m in messages :: Listed(mailbox, m))
    case RefreshFlags(mailbox, listing) =>
      s' == s.(archive := Sync.Refreshed(s.archive, FolderOf(s, mailbox, ""), listing))
    case Fetch(l, mode) => FetchStep(s, l, mode, s')
    case Ingest(f, localRole) => IngestStep(s, f, localRole, s', parse)
    case Prepare(id, plan) =>
      id in s.archive.messages && !s.archive.messages[id].deleted && id in s.archive.bindings &&
      s' == s.(mutations := s.mutations + {PreparedFor(s.archive, id, plan)})
    case Select(m) =>
      m in s.mutations && m.stage.Prepared? && m.remote.mailbox in s.server &&
      VerifyUidvalidity(m.remote, Some(s.server[m.remote.mailbox].uidvalidity)) &&
      s' == s.(mutations := s.mutations + {m.(stage := Selected(0))})
    case Command(m) => CommandStep(s, m, s')
    case ReconcileRow(m, _) => m in s.mutations && ReconcileStep(s, m, a, s')
    case ReconcileBinding(m) => m in s.mutations && ReconcileStep(s, m, a, s')
    case ReconcileRemoval(m) => m in s.mutations && ReconcileStep(s, m, a, s')
  }

  function PreparedFor(a: Archive, id: MessageId, plan: Plan): Mutation
    requires id in a.messages && id in a.bindings
  {
    Mutation(id, a.bindings[id].remote, a.messages[id], plan, Prepared)
  }

  ghost predicate Next(s: System, s': System, parse: Bytes -> Option<string>) {
    exists a :: Step(s, a, s', parse)
  }

  /** UIDs do not change during a session, so one whose mailbox has been replaced can issue nothing. */
  predicate SessionAlive(s: System, m: Mutation) {
    m.remote.mailbox in s.server && s.server[m.remote.mailbox].uidvalidity == m.remote.uidvalidity
  }

  ghost predicate Initial(s: System) {
    && ValidServer(s.server)
    && s.history == Places(s.account, s.server)
    && s.archive == EMPTY
    && s.listed == {} && s.fetched == {} && s.taken == map[] && s.mutations == {}
  }

  ghost predicate IsRun(run: seq<System>, parse: Bytes -> Option<string>) {
    && run != [] && Initial(run[0])
    && forall i :: 0 <= i < |run| - 1 ==> Next(run[i], run[i + 1], parse)
  }

  // ----- the invariant -----

  /** The remote a message id was hashed from. */
  function RemoteOf(s: System, id: MessageId): Remote
    requires id.RemoteBound?
  {
    Remote(s.account, id.mailbox, id.uidvalidity, id.uid)
  }

  predicate PlaceKnown(s: System, p: Remote) {
    && p.account == s.account
    && p.mailbox in s.server
    && p.uidvalidity <= s.server[p.mailbox].uidvalidity
    && (p.uidvalidity == s.server[p.mailbox].uidvalidity ==> p.uid < s.server[p.mailbox].uidNext)
  }

  ghost predicate HistoryOk(s: System) {
    && ValidServer(s.server)
    && (forall p :: p in s.history ==> PlaceKnown(s, p))
    && (forall box, uid :: box in s.server && uid in s.server[box].mails ==>
          var p := Remote(s.account, box, s.server[box].uidvalidity, uid);
          p in s.history && s.history[p] == s.server[box].mails[uid].content)
  }

  predicate ListedOk(s: System, l: Listed) {
    && l.mailbox in s.server
    && (l.message.uidvalidity.Some? ==> l.message.uidvalidity.value <= s.server[l.mailbox].uidvalidity)
  }

  /** The bytes come from a place with the listed UID, no older than the listing. */
  predicate FetchedOk(s: System, f: Fetched) {
    && f.place in s.history && s.history[f.place] == f.content
    && f.place.mailbox == f.listed.mailbox && f.place.uid == f.listed.message.uid
    && (f.listed.message.uidvalidity.Some? ==> f.listed.message.uidvalidity.value <= f.place.uidvalidity)
  }

  predicate TakenOk(s: System, id: MessageId) {
    && id in s.taken && s.taken[id] in s.fetched && FetchedOk(s, s.taken[id])
    && id.RemoteBound?
    && id.content == Digest(s.taken[id].Data())
    && id.mailbox == s.taken[id].listed.mailbox && id.uid == s.taken[id].listed.message.uid
    && s.taken[id].listed.message.uidvalidity == Some(id.uidvalidity)
  }

  ghost predicate BindingsOk(s: System) {
    forall id :: id in s.archive.bindings ==>
      id in s.taken && id.RemoteBound? && s.archive.bindings[id].remote == RemoteOf(s, id)
  }

  ghost predicate MutationsOk(s: System) {
    forall m :: m in s.mutations ==> m.id in s.taken && m.id.RemoteBound? && m.remote == RemoteOf(s, m.id)
  }

  ghost predicate Inv(s: System) {
    && HistoryOk(s)
    && (forall l :: l in s.listed ==> ListedOk(s, l))
    && (forall f :: f in s.fetched ==> FetchedOk(s, f))
    && (forall id :: id in s.taken ==> TakenOk(s, id))
    && BindingsOk(s)
    && MutationsOk(s)
  }

  lemma {:induction false} InitialInv(s: System)
    requires Initial(s)
    ensures Inv(s)
  {
    assert HistoryOk(s) by {
      forall box, uid | box in s.server && uid in s.server[box].mails
        ensures Remote(s.account, box, s.server[box].uidvalidity, uid) in s.history
      {
        assert Remote(s.account, box, s.server[box].uidvalidity, uid) in PlaceSet(s.account, s.server);
      }
    }
  }

  /** Extending the history never rewrites it, so whatever was fetched is still what its place held. */
  lemma {:induction false} HistoryGrows(s: System, s': System)
    requires HistoryOk(s) && Respects(s.server, s'.server) && s'.account == s.account
    requires s'.history == s.history + Places(s.account, s'.server)
    ensures HistoryOk(s')
    ensures forall p :: p in s.history ==> p in s'.history && s'.history[p] == s.history[p]
  {
    forall p | p in s.history && p in Places(s.account, s'.server)
      ensures Places(s.account, s'.server)[p] == s.history[p]
    {
      assert PlaceKnown(s, p) && BoxRespects(s.server[p.mailbox], s'.server[p.mailbox]);
    }
    forall p | p in s.history
      ensures PlaceKnown(s', p)
    {
      assert PlaceKnown(s, p) && BoxRespects(s.server[p.mailbox], s'.server[p.mailbox]);
    }
    forall p | p in Places(s.account, s'.server)
      ensures PlaceKnown(s', p)
    {
    }
    forall box, uid | box in s'.server && uid in s'.server[box].mails
      ensures Remote(s.account, box, s'.server[box].uidvalidity, uid) in s'.history
      ensures s'.history[Remote(s.account, box, s'.server[box].uidvalidity, uid)] == s'.server[box].mails[uid].content
    {
      assert Remote(s.account, box, s'.server[box].uidvalidity, uid) in PlaceSet(s.account, s'.server);
    }
  }

  lemma {:induction false} ServerStepKeepsInv(s: System, s': System)
    requires Inv(s) && Respects(s.server, s'.server) && s'.account == s.account
    requires s'.history == s.history + Places(s.account, s'.server)
    requires s'.archive == s.archive && s'.listed == s.listed && s'.fetched == s.fetched && s'.taken == s.taken
    requires MutationsOk(s')
    ensures Inv(s')
  {
    HistoryGrows(s, s');
    forall box | box in s.server
      ensures s.server[box].uidvalidity <= s'.server[box].uidvalidity
    {
      assert BoxRespects(s.server[box], s'.server[box]);
    }
    forall l | l in s.listed
      ensures ListedOk(s', l)
    {
      assert ListedOk(s, l);
    }
    forall f | f in s.fetched
      ensures FetchedOk(s', f)
    {
      assert FetchedOk(s, f);
    }
    forall id | id in s.taken
      ensures TakenOk(s', id)
    {
      assert TakenOk(s, id);
    }
  }

  lemma {:induction false} IngestKeepsInv(
      s: System, f: Fetched, localRole: string, s': System, parse: Bytes -> Option<string>)
    requires Inv(s) && IngestStep(s, f, localRole, s', parse)
    ensures Inv(s')
  {
    if s' == s.(archive := WithBlob(s.archive, f.Data())) {
      ClientStepKeepsInv(s, s');
    } else {
      StoreKeepsInv(s, f, localRole, s', parse);
    }
  }

  lemma {:induction false} StoreKeepsInv(
      s: System, f: Fetched, localRole: string, s': System, parse: Bytes -> Option<string>)
    requires Inv(s) && f in s.fetched && Stored(s, f, localRole, s', parse)
    ensures Inv(s')
  {
    var request := IngestRequest(s, f, localRole);
    var id := IngestMessageId(request, Digest(f.Data()));
    assert FetchedOk(s, f);
    forall other | other in s'.taken
      ensures TakenOk(s', other)
    {
      if other != id {
        assert TakenOk(s, other);
      }
    }
    forall other | other in s'.archive.bindings
      ensures other in s'.taken && s'.archive.bindings[other].remote == RemoteOf(s', other)
    {
      if other in s.archive.bindings {
        assert TakenOk(s, other);
      }
    }
  }

  /** A step that leaves server, history and `taken` alone owes only what it adds. */
  lemma {:induction false} ClientStepKeepsInv(s: System, s': System)
    requires Inv(s)
    requires s'.account == s.account && s'.server == s.server && s'.history == s.history && s'.taken == s.taken
    requires s.fetched <= s'.fetched
    requires forall l :: l in s'.listed && l !in s.listed ==> ListedOk(s, l)
    requires forall f :: f in s'.fetched && f !in s.fetched ==> FetchedOk(s, f)
    requires BindingsOk(s') && MutationsOk(s')
    ensures Inv(s')
  {
    forall l | l in s'.listed
      ensures ListedOk(s', l)
    {
      assert ListedOk(s, l);
    }
    forall f | f in s'.fetched
      ensures FetchedOk(s', f)
    {
      assert FetchedOk(s, f);
    }
    forall id | id in s'.taken
      ensures TakenOk(s', id)
    {
      assert TakenOk(s, id);
    }
    assert HistoryOk(s') by {
      assert forall p :: PlaceKnown(s, p) <==> PlaceKnown(s', p);
    }
  }

  lemma {:induction false} CommandKeepsInv(s: System, m: Mutation, s': System)
    requires Inv(s) && CommandStep(s, m, s')
    ensures Inv(s')
  {
    ExecRespects(s.server, m.remote.mailbox, m.remote.uid, Commands(m.plan)[m.stage.acknowledged]);
    ServerStepKeepsInv(s, s');
  }

  lemma {:induction false} FetchKeepsInv(s: System, l: Listed, mode: FetchMode, s': System)
    requires Inv(s) && FetchStep(s, l, mode, s')
    ensures Inv(s')
  {
    assert ListedOk(s, l);
    assert Remote(s.account, l.mailbox, s.server[l.mailbox].uidvalidity, l.message.uid) in s.history;
    ClientStepKeepsInv(s, s');
  }

  lemma {:induction false} ReconcileKeepsInv(s: System, m: Mutation, a: Action, s': System)
    requires Inv(s) && m in s.mutations && ReconcileStep(s, m, a, s')
    ensures Inv(s')
  {
    assert BindingsOk(s');
    ClientStepKeepsInv(s, s');
  }

  lemma {:induction false} RefreshKeepsInv(
      s: System, mailbox: string, listing: seq<Sync.RemoteMessage>, s': System, parse: Bytes -> Option<string>)
    requires Inv(s) && Step(s, RefreshFlags(mailbox, listing), s', parse)
    ensures Inv(s')
  {
    Sync.RefreshedRows(s.archive, FolderOf(s, mailbox, ""), listing);
    ClientStepKeepsInv(s, s');
  }

  lemma {:induction false} ListKeepsInv(
      s: System, mailbox: string, messages: set<Sync.RemoteMessage>, s': System, parse: Bytes -> Option<string>)
    requires Inv(s) && Step(s, List(mailbox, messages), s', parse)
    ensures Inv(s')
  {
    ClientStepKeepsInv(s, s');
  }

  lemma {:induction false} PlanKeepsInv(s: System, a: Action, s': System, parse: Bytes -> Option<string>)
    requires Inv(s) && (a.Prepare? || a.Select?) && Step(s, a, s', parse)
    ensures Inv(s')
  {
    ClientStepKeepsInv(s, s');
  }

  lemma {:induction false} StepKeepsInv(s: System, a: Action, s': System, parse: Bytes -> Option<string>)
    requires Inv(s) && Step(s, a, s', parse)
    ensures Inv(s')
  {
    match a {
      case ServerMoves(server) => ServerStepKeepsInv(s, s');
      case Command(m) => CommandKeepsInv(s, m, s');
      case Ingest(f, localRole) => IngestKeepsInv(s, f, localRole, s', parse);
      case Fetch(l, mode) => FetchKeepsInv(s, l, mode, s');
      case RefreshFlags(mailbox, listing) => RefreshKeepsInv(s, mailbox, listing, s', parse);
      case List(mailbox, messages) => ListKeepsInv(s, mailbox, messages, s', parse);
      case Prepare(_, _) => PlanKeepsInv(s, a, s', parse);
      case Select(_) => PlanKeepsInv(s, a, s', parse);
      case _ => ReconcileKeepsInv(s, a.m, a, s');
    }
  }

  // ----- the archive of a run -----

  /** Nothing in a run damages a blob file, so every row's bytes are in place. */
  ghost predicate FilesIntact(a: Archive) {
    forall id :: id in a.messages ==> FileHolds(a, a.messages[id].content)
  }

  predicate FileHolds(a: Archive, content: Digest) {
    content in a.files && a.files[content] == content.data
  }

  ghost predicate ArchiveOk(a: Archive, parse: Bytes -> Option<string>) {
    Valid(a, parse) && FilesIntact(a)
  }

  lemma {:induction false} IngestKeepsArchive(
      s: System, f: Fetched, localRole: string, s': System, parse: Bytes -> Option<string>)
    requires ArchiveOk(s.archive, parse) && IngestStep(s, f, localRole, s', parse)
    ensures ArchiveOk(s'.archive, parse)
  {
    if s'.archive == WithBlob(s.archive, f.Data()) {
      BlobKeepsArchive(s.archive, f.Data(), parse);
    } else {
      IngestKeepsValid(s.archive, IngestRequest(s, f, localRole), f.Data(), parse);
    }
  }

  lemma {:induction false} BlobKeepsArchive(a: Archive, data: Bytes, parse: Bytes -> Option<string>)
    requires ArchiveOk(a, parse)
    ensures ArchiveOk(WithBlob(a, data), parse)
  {
    forall id
      ensures IdAgrees(WithBlob(a, data), id)
    {
      assert IdAgrees(a, id);
    }
  }

  lemma {:induction false} RefreshKeepsArchive(
      a: Archive, folder: Sync.Folder, listing: seq<Sync.RemoteMessage>, parse: Bytes -> Option<string>)
    requires ArchiveOk(a, parse)
    ensures ArchiveOk(Sync.Refreshed(a, folder, listing), parse)
  {
    Sync.RefreshedRows(a, folder, listing);
    Sync.SameValid(a, Sync.Refreshed(a, folder, listing), parse);
  }

  lemma {:induction false} ReconcileKeepsArchive(
      s: System, m: Mutation, a: Action, s': System, parse: Bytes -> Option<string>)
    requires Inv(s) && ArchiveOk(s.archive, parse) && m in s.mutations && ReconcileStep(s, m, a, s')
    ensures ArchiveOk(s'.archive, parse)
  {
    match a {
      case ReconcileRow(_, target) =>
        LocalStateKeepsValid(s.archive, s.account, m.id, m.RoleAfter(target), m.ReadAfter(), m.StarredAfter(), parse);
      case ReconcileBinding(_) =>
        RebindKeepsValid(s.archive, m.id, if m.plan.Flag? then Some(m.remote) else None, parse);
      case _ =>
        RemoveKeepsValid(s.archive, s.account, m.id, parse);
    }
  }

  lemma {:induction false} StepKeepsArchive(s: System, a: Action, s': System, parse: Bytes -> Option<string>)
    requires Inv(s) && ArchiveOk(s.archive, parse) && Step(s, a, s', parse)
    ensures ArchiveOk(s'.archive, parse)
  {
    match a {
      case Ingest(f, localRole) => IngestKeepsArchive(s, f, localRole, s', parse);
      case RefreshFlags(mailbox, listing) => RefreshKeepsArchive(s.archive, FolderOf(s, mailbox, ""), listing, parse);
      case ReconcileRow(m, _) => ReconcileKeepsArchive(s, m, a, s', parse);
      case ReconcileBinding(m) => ReconcileKeepsArchive(s, m, a, s', parse);
      case ReconcileRemoval(m) => ReconcileKeepsArchive(s, m, a, s', parse);
      case _ =>
    }
  }

  lemma {:induction false} NextKeepsInv(s: System, s': System, parse: Bytes -> Option<string>)
    requires Inv(s) && ArchiveOk(s.archive, parse) && Next(s, s', parse)
    ensures Inv(s') && ArchiveOk(s'.archive, parse)
  {
    var a :| Step(s, a, s', parse);
    StepKeepsInv(s, a, s', parse);
    StepKeepsArchive(s, a, s', parse);
  }

  /** Every state of a run keeps the invariant, and its archive the constraints of the schema. */
  lemma {:induction false} RunsKeepInv(run: seq<System>, i: nat, parse: Bytes -> Option<string>)
    requires IsRun(run, parse) && i < |run|
    ensures Inv(run[i]) && ArchiveOk(run[i].archive, parse)
  {
    if i == 0 {
      InitialInv(run[0]);
      EmptyIsValid(parse);
    } else {
      RunsKeepInv(run, i - 1, parse);
      assert Next(run[i - 1], run[i - 1 + 1], parse);
      NextKeepsInv(run[i - 1], run[i], parse);
    }
  }

  // ----- theorems over every run -----

  /**
   A binding whose UIDVALIDITY is the mailbox's current one tells the truth: if
   its UID still names a mail, the archive stored that mail's bytes under the
   bound message id, fetched from that very place. Bindings that workers made
   across a reset name an earlier UIDVALIDITY.
   */
  lemma {:induction false} CurrentBindingsAreTrue(
      run: seq<System>, i: nat, id: MessageId, parse: Bytes -> Option<string>)
    requires IsRun(run, parse) && i < |run| && id in run[i].archive.bindings
    ensures
      var s, remote := run[i], run[i].archive.bindings[id].remote;
      && remote.mailbox in s.server && remote.uidvalidity <= s.server[remote.mailbox].uidvalidity
      && (remote.uidvalidity == s.server[remote.mailbox].uidvalidity && remote.uid in s.server[remote.mailbox].mails ==>
            && id in s.taken && s.taken[id].place == remote
            && s.taken[id].content == s.server[remote.mailbox].mails[remote.uid].content
            && id.RemoteBound? && id.content == Digest(s.taken[id].Data()))
  {
    RunsKeepInv(run, i, parse);
    var s, remote := run[i], run[i].archive.bindings[id].remote;
    assert TakenOk(s, id) && FetchedOk(s, s.taken[id]) && PlaceKnown(s, s.taken[id].place);
    if remote.uidvalidity == s.server[remote.mailbox].uidvalidity {
      CurrentTakenIsThere(s, id);
    }
  }

  /** What was taken for an id hashed from the current UIDVALIDITY was taken from the very place the id names. */
  lemma {:induction false} CurrentTakenIsThere(s: System, id: MessageId)
    requires Inv(s) && id in s.taken && id.RemoteBound?
    requires id.mailbox in s.server && id.uidvalidity == s.server[id.mailbox].uidvalidity
    ensures s.taken[id].place == RemoteOf(s, id)
    ensures id.uid in s.server[id.mailbox].mails ==> s.taken[id].content == s.server[id.mailbox].mails[id.uid].content
    ensures id.content == Digest(s.taken[id].Data())
  {
    assert TakenOk(s, id) && FetchedOk(s, s.taken[id]) && PlaceKnown(s, s.taken[id].place);
  }

  /**
   The mail a mutation names is there, it is the one the message id was stored
   from, and its bytes are the id's content.
   */
  predicate IsStoredMail(s: System, m: Mutation) {
    var box, uid := m.remote.mailbox, m.remote.uid;
    && box in s.server && uid in s.server[box].mails && m.id in s.taken
    && s.taken[m.id].place == m.remote == Remote(s.account, box, s.server[box].uidvalidity, uid)
    && s.taken[m.id].content == s.server[box].mails[uid].content
    && m.id.RemoteBound? && m.id.content == Digest(s.taken[m.id].Data())
    && var content := s.server[box].mails[uid].content;
       m.id.content.data == if s.taken[m.id].mode.Headers? then content.header else content.header + content.text
  }

  lemma {:induction false} CommandTouches(s: System, m: Mutation, s': System)
    requires Inv(s) && CommandStep(s, m, s')
    ensures s'.server != s.server ==> IsStoredMail(s, m)
  {
    assert m.remote == RemoteOf(s, m.id);
    CurrentTakenIsThere(s, m.id);
    CommandTouchesServer(s, m, s');
  }

  lemma {:induction false} CommandTouchesServer(s: System, m: Mutation, s': System)
    requires ValidServer(s.server) && CommandStep(s, m, s')
    ensures TouchesOnly(s.server, s'.server, m.remote.mailbox, m.remote.uid)
    ensures s'.server != s.server ==> m.remote.uid in s.server[m.remote.mailbox].mails
  {
    if s'.server != s.server {
      NoMailNoChange(s.server, m.remote.mailbox, m.remote.uid, Commands(m.plan)[m.stage.acknowledged]);
    }
    ExecTouchesOnly(s.server, m.remote.mailbox, m.remote.uid, Commands(m.plan)[m.stage.acknowledged]);
  }

  /**
   A command of a plan, issued at any point of any run, has an effect only if
   its UID still names the very mail its message id was stored from.
   */
  lemma {:induction false} CommandActsOnTheStoredMail(
      run: seq<System>, i: nat, m: Mutation, parse: Bytes -> Option<string>)
    requires IsRun(run, parse) && i + 1 < |run|
    requires Step(run[i], Command(m), run[i + 1], parse)
    ensures run[i + 1].server != run[i].server ==> IsStoredMail(run[i], m)
  {
    RunsKeepInv(run, i, parse);
    CommandTouches(run[i], m, run[i + 1]);
  }

  /** And then it changes that mail alone; anything it adds is a copy of it. */
  lemma {:induction false} CommandTouchesOneMail(run: seq<System>, i: nat, m: Mutation, parse: Bytes -> Option<string>)
    requires IsRun(run, parse) && i + 1 < |run|
    requires Step(run[i], Command(m), run[i + 1], parse)
    ensures TouchesOnly(run[i].server, run[i + 1].server, m.remote.mailbox, m.remote.uid)
  {
    RunsKeepInv(run, i, parse);
    CommandTouchesServer(run[i], m, run[i + 1]);
  }

  function ServersOf(run: seq<System>): (servers: seq<Server>)
    ensures |servers| == |run| && forall i :: 0 <= i < |run| ==> servers[i] == run[i].server
  {
    seq(|run|, i requires 0 <= i < |run| => run[i].server)
  }

  lemma {:induction false} NextRespects(s: System, s': System, parse: Bytes -> Option<string>)
    requires ValidServer(s.server) && Next(s, s', parse)
    ensures Respects(s.server, s'.server)
  {
    var a :| Step(s, a, s', parse);
    if a.Command? {
      ExecRespects(s.server, a.m.remote.mailbox, a.m.remote.uid, Commands(a.m.plan)[a.m.stage.acknowledged]);
    }
  }

  lemma {:induction false} ServersStayValid(run: seq<System>, i: nat, parse: Bytes -> Option<string>)
    requires IsRun(run, parse) && i < |run|
    ensures ValidServer(run[i].server)
  {
    RunsKeepInv(run, i, parse);
  }

  /** Over a run, plans and crashes included, the server keeps its promises. */
  lemma {:induction false} RunRespects(run: seq<System>, parse: Bytes -> Option<string>)
    requires IsRun(run, parse)
    ensures ServerRun(ServersOf(run))
  {
    forall i | 0 <= i < |run|
      ensures ValidServer(run[i].server)
    {
      ServersStayValid(run, i, parse);
    }
    forall i | 0 <= i < |run| - 1
      ensures Respects(ServersOf(run)[i], ServersOf(run)[i + 1])
    {
      assert Next(run[i], run[i + 1], parse);
      NextRespects(run[i], run[i + 1], parse);
    }
  }

  lemma {:induction false} StaleCannotStep(s: System, m: Mutation, s': System, parse: Bytes -> Option<string>)
    requires m.remote.mailbox in s.server && m.remote.uidvalidity < s.server[m.remote.mailbox].uidvalidity
    ensures !Step(s, Command(m), s', parse) && !Step(s, Select(m), s', parse)
  {
  }

  /** Once its mailbox has a newer UIDVALIDITY, a stored binding can never act again. */
  lemma {:induction false} StaleBindingsNeverAct(
      run: seq<System>, i: nat, j: nat, m: Mutation, parse: Bytes -> Option<string>)
    requires IsRun(run, parse) && i <= j && j + 1 < |run|
    requires m.remote.mailbox in run[i].server && m.remote.uidvalidity < run[i].server[m.remote.mailbox].uidvalidity
    ensures !Step(run[j], Command(m), run[j + 1], parse) && !Step(run[j], Select(m), run[j + 1], parse)
  {
    RunRespects(run, parse);
    UidvalidityGrows(ServersOf(run), i, j, m.remote.mailbox);
    StaleCannotStep(run[j], m, run[j + 1], parse);
  }

  // ----- what a worker fetches -----

  /** The place a listing under a UIDVALIDITY speaks of. */
  function ListedPlace(s: System, l: Listed): Remote
    requires l.message.uidvalidity.Some?
  {
    Remote(s.account, l.mailbox, l.message.uidvalidity.value, l.message.uid)
  }

  /** The step by which a run fetched `f`. */
  ghost predicate Fetches(s: System, f: Fetched, s': System) {
    && FetchStep(s, f.listed, f.mode, s')
    && f.place == Remote(s.account, f.listed.mailbox, s.server[f.listed.mailbox].uidvalidity, f.listed.message.uid)
  }

  lemma {:induction false} NewFetchIsAStep(s: System, s': System, f: Fetched, parse: Bytes -> Option<string>)
    requires Next(s, s', parse) && f in s'.fetched && f !in s.fetched
    ensures Fetches(s, f, s')
  {
    var a :| Step(s, a, s', parse);
    assert a.Fetch?;
  }

  lemma {:induction false} EveryFetchHasAStep(run: seq<System>, i: nat, f: Fetched, parse: Bytes -> Option<string>)
    requires IsRun(run, parse) && i < |run| && f in run[i].fetched
    ensures exists k :: 0 <= k < i && Fetches(run[k], f, run[k + 1])
  {
    if f in run[i - 1].fetched {
      EveryFetchHasAStep(run, i - 1, f, parse);
      var k :| 0 <= k < i - 1 && Fetches(run[k], f, run[k + 1]);
    } else {
      assert Next(run[i - 1], run[i - 1 + 1], parse);
      NewFetchIsAStep(run[i - 1], run[i], f, parse);
      assert Fetches(run[i - 1], f, run[i - 1 + 1]);
    }
  }

  lemma {:induction false} NextKeepsAccount(s: System, s': System, parse: Bytes -> Option<string>)
    requires Next(s, s', parse)
    ensures s'.account == s.account
  {
  }

  lemma {:induction false} AccountIsFixed(run: seq<System>, i: nat, parse: Bytes -> Option<string>)
    requires IsRun(run, parse) && i < |run|
    ensures run[i].account == run[0].account
  {
    if i > 0 {
      AccountIsFixed(run, i - 1, parse);
      assert Next(run[i - 1], run[i - 1 + 1], parse);
      NextKeepsAccount(run[i - 1], run[i], parse);
    }
  }

  /** What a run had fetched was fetched from the current UIDVALIDITY of its mailbox at some earlier step. */
  lemma {:induction false} FetchedFromCurrent(run: seq<System>, i: nat, f: Fetched, parse: Bytes -> Option<string>)
    requires IsRun(run, parse) && i < |run| && f in run[i].fetched
    ensures exists k :: 0 <= k < i && FetchedUnder(run, k, f)
    ensures f.place.account == run[i].account
  {
    EveryFetchHasAStep(run, i, f, parse);
    var k :| 0 <= k < i && Fetches(run[k], f, run[k + 1]);
    AccountIsFixed(run, i, parse);
    AccountIsFixed(run, k, parse);
    assert FetchedUnder(run, k, f);
  }

  /** Step k fetches `f`, from the UIDVALIDITY its mailbox then has. */
  ghost predicate FetchedUnder(run: seq<System>, k: nat, f: Fetched)
    requires k + 1 < |run|
  {
    && Fetches(run[k], f, run[k + 1])
    && f.listed.mailbox in run[k].server
    && f.place.uidvalidity == run[k].server[f.listed.mailbox].uidvalidity
  }

  /**
   A worker fetches the listed mail if and only if, when it fetches, the
   mailbox still has the UIDVALIDITY of the listing, which it does not test.
   Then the bytes are what the listed place ever held.
   */
  lemma {:induction false} WorkerFetchesListedMailIff(
      run: seq<System>, i: nat, f: Fetched, parse: Bytes -> Option<string>)
    requires IsRun(run, parse) && i < |run| && f in run[i].fetched && f.listed.message.uidvalidity.Some?
    ensures exists k :: 0 <= k < i && FetchedUnder(run, k, f) &&
              (f.place == ListedPlace(run[i], f.listed) <==>
                 run[k].server[f.listed.mailbox].uidvalidity == f.listed.message.uidvalidity.value)
    ensures f.place == ListedPlace(run[i], f.listed) ==>
              ListedPlace(run[i], f.listed) in run[i].history &&
              run[i].history[ListedPlace(run[i], f.listed)] == f.content
  {
    RunsKeepInv(run, i, parse);
    assert FetchedOk(run[i], f);
    FetchedFromCurrent(run, i, f, parse);
  }

  /**
   What the archive stored for a binding came from the bound place if and only
   if the mailbox still had the bound UIDVALIDITY at the fetch; and then it is
   what that place held. Otherwise the mailbox had a greater one, and the
   binding was stale before it was made.
   */
  lemma {:induction false} BindingHoldsItsMailIff(
      run: seq<System>, i: nat, id: MessageId, parse: Bytes -> Option<string>)
    requires IsRun(run, parse) && i < |run| && id in run[i].archive.bindings
    ensures
      var s, remote := run[i], run[i].archive.bindings[id].remote;
      && id in s.taken && id.RemoteBound? && id.content == Digest(s.taken[id].Data())
      && (exists k :: 0 <= k < i && FetchedUnder(run, k, s.taken[id]) && remote.mailbox in run[k].server &&
            remote.uidvalidity <= run[k].server[remote.mailbox].uidvalidity &&
            (s.taken[id].place == remote <==> run[k].server[remote.mailbox].uidvalidity == remote.uidvalidity))
      && (s.taken[id].place == remote ==> remote in s.history && s.history[remote] == s.taken[id].content)
  {
    RunsKeepInv(run, i, parse);
    var s, remote := run[i], run[i].archive.bindings[id].remote;
    assert TakenOk(s, id) && FetchedOk(s, s.taken[id]);
    FetchedFromCurrent(run, i, s.taken[id], parse);
  }

  // ----- why the proviso about past values is needed -----

  predicate HoldsAnotherMail(s: System) {
    exists id :: id in s.archive.bindings && id in s.taken && s.archive.bindings[id].remote in s.history &&
      s.taken[id].content != s.history[s.archive.bindings[id].remote]
  }

  function OneMail(uidvalidity: nat, content: Content): Server {
    map["INBOX" := Mailbox(uidvalidity, 2, map[1 := Mail(content, {})])]
  }

  const WANTED := Content([], [1])
  const OTHER := Content([], [2])
  const LISTED := Listed("INBOX", Sync.RemoteMessage(1, Some(1), 1, None, false, false))
  const FETCHED := Fetched(LISTED, Remote("a", "INBOX", 2, 1), OTHER, Full)

  function Listing(): System {
    System("a", OneMail(1, WANTED), map[Remote("a", "INBOX", 1, 1) := WANTED], EMPTY, {LISTED}, {}, map[], {})
  }

  function Replaced(): System {
    Listing().(server := OneMail(2, OTHER), history := Listing().history + map[Remote("a", "INBOX", 2, 1) := OTHER])
  }

  function Downloaded(): System {
    Replaced().(fetched := {FETCHED})
  }

  function Kept(parse: Bytes -> Option<string>): System {
    var request := IngestRequest(Downloaded(), FETCHED, "inbox");
    Downloaded().(archive := Storage.Ingest(EMPTY, request, FETCHED.Data(), parse),
                  taken := map[IngestMessageId(request, Digest(FETCHED.Data())) := FETCHED])
  }

  lemma {:induction false} OnePlace(uidvalidity: nat, content: Content)
    ensures Places("a", OneMail(uidvalidity, content)) == map[Remote("a", "INBOX", uidvalidity, 1) := content]
  {
    var server := OneMail(uidvalidity, content);
    assert "INBOX" in server && 1 in server["INBOX"].mails;
    assert Remote("a", "INBOX", server["INBOX"].uidvalidity, 1) in PlaceSet("a", server);
    assert PlaceSet("a", server) == {Remote("a", "INBOX", uidvalidity, 1)};
  }

  lemma {:induction false} ListsThenReplaced(parse: Bytes -> Option<string>)
    ensures Initial(Listing().(listed := {}))
    ensures Next(Listing().(listed := {}), Listing(), parse)
    ensures Next(Listing(), Replaced(), parse)
  {
    OnePlace(1, WANTED);
    OnePlace(2, OTHER);
    assert Next(Listing().(listed := {}), Listing(), parse) by {
      assert (set m | m in {LISTED.message} :: Listed("INBOX", m)) == {LISTED};
      assert Step(Listing().(listed := {}), List("INBOX", {LISTED.message}), Listing(), parse);
    }
    assert BoxRespects(OneMail(1, WANTED)["INBOX"], OneMail(2, OTHER)["INBOX"]);
    assert Step(Listing(), ServerMoves(OneMail(2, OTHER)), Replaced(), parse);
  }

  lemma {:induction false} FetchesThenStores(parse: Bytes -> Option<string>)
    ensures Next(Replaced(), Downloaded(), parse)
    ensures Next(Downloaded(), Kept(parse), parse)
    ensures HoldsAnotherMail(Kept(parse))
  {
    assert Step(Replaced(), Fetch(LISTED, Full), Downloaded(), parse);
    var request := IngestRequest(Downloaded(), FETCHED, "inbox");
    assert Admits(EMPTY, request, FETCHED.Data());
    assert Step(Downloaded(), Ingest(FETCHED, "inbox"), Kept(parse), parse);
    var id := IngestMessageId(request, Digest(FETCHED.Data()));
    assert Kept(parse).archive.bindings[id].remote == Remote("a", "INBOX", 1, 1);
    assert WANTED.text[0] != OTHER.text[0];
  }

  lemma {:induction false} RunExtends(run: seq<System>, s': System, parse: Bytes -> Option<string>)
    requires IsRun(run, parse) && Next(run[|run| - 1], s', parse)
    ensures IsRun(run + [s'], parse) && (run + [s'])[|run + [s']| - 1] == s'
  {
    var longer := run + [s'];
    forall i | 0 <= i < |longer| - 1
      ensures Next(longer[i], longer[i + 1], parse)
    {
      if i < |run| - 1 {
        assert longer[i] == run[i] && longer[i + 1] == run[i + 1];
      }
    }
  }

  ghost predicate Reached(s: System, parse: Bytes -> Option<string>) {
    exists run: seq<System> :: IsRun(run, parse) && run[|run| - 1] == s
  }

  lemma {:induction false} StartIsReached(s: System, parse: Bytes -> Option<string>)
    requires Initial(s)
    ensures Reached(s, parse)
  {
    assert IsRun([s], parse) && [s][|[s]| - 1] == s;
  }

  lemma {:induction false} ReachedNext(s: System, s': System, parse: Bytes -> Option<string>)
    requires Reached(s, parse) && Next(s, s', parse)
    ensures Reached(s', parse)
  {
    var run: seq<System> :| IsRun(run, parse) && run[|run| - 1] == s;
    RunExtends(run, s', parse);
  }

  /**
   A worker can store the wrong mail under a listed UID: the mailbox is
   replaced between the listing and the fetch. The binding it leaves is stale
   from the start.
   */
  lemma {:induction false} WorkerMayStoreAnotherMail(parse: Bytes -> Option<string>)
    ensures exists s :: Reached(s, parse) && HoldsAnotherMail(s)
  {
    ListsThenReplaced(parse);
    FetchesThenStores(parse);
    StartIsReached(Listing().(listed := {}), parse);
    ReachedNext(Listing().(listed := {}), Listing(), parse);
    ReachedNext(Listing(), Replaced(), parse);
    ReachedNext(Replaced(), Downloaded(), parse);
    ReachedNext(Downloaded(), Kept(parse), parse);
  }
}
