/**
 The remote server as far as the client relies on it, and the plans the client
 runs against it.

 `Respects` is what section 2.3.1.1 of RFC 3501 promises between any two
 states: within one UIDVALIDITY a UID is never reused and never names another
 text, and a new UIDVALIDITY is greater than the old one.
 */
module ImapServer {
  import opened Basics
  import opened Storage

  datatype Flag = Seen | Flagged | Deleted

  datatype Content = Content(header: Bytes, text: Bytes)

  datatype Mail = Mail(content: Content, flags: set<Flag>)

  datatype Mailbox = Mailbox(uidvalidity: nat, uidNext: nat, mails: map<nat, Mail>)

  type Server = map<string, Mailbox>

  predicate ValidServer(server: Server) {
    forall box, uid :: box in server && uid in server[box].mails ==> uid < server[box].uidNext
  }

  ghost predicate Respects(server: Server, server': Server) {
    && ValidServer(server')
    && server.Keys <= server'.Keys
    && forall box :: box in server ==> BoxRespects(server[box], server'[box])
  }

  ghost predicate BoxRespects(before: Mailbox, after: Mailbox) {
    || before.uidvalidity < after.uidvalidity
    || (&& before.uidvalidity == after.uidvalidity
        && before.uidNext <= after.uidNext
        && forall uid :: uid in after.mails ==>
             if uid in before.mails then after.mails[uid].content == before.mails[uid].content
             else before.uidNext <= uid)
  }

  // ----- a server over time -----

  ghost predicate ServerRun(servers: seq<Server>) {
    && (forall i :: 0 <= i < |servers| ==> ValidServer(servers[i]))
    && forall i :: 0 <= i < |servers| - 1 ==> Respects(servers[i], servers[i + 1])
  }

  /** The mail a remote names is there. */
  predicate Present(server: Server, remote: Remote) {
    && remote.mailbox in server && server[remote.mailbox].uidvalidity == remote.uidvalidity
    && remote.uid in server[remote.mailbox].mails
  }

  lemma {:induction false} UidvalidityGrows(servers: seq<Server>, i: nat, j: nat, box: string)
    requires ServerRun(servers) && i <= j < |servers| && box in servers[i]
    ensures box in servers[j] && servers[i][box].uidvalidity <= servers[j][box].uidvalidity
  {
    if i < j {
      UidvalidityGrows(servers, i, j - 1, box);
      assert Respects(servers[j - 1], servers[j - 1 + 1]);
      assert BoxRespects(servers[j - 1][box], servers[j][box]);
    }
  }

  /** Within one UIDVALIDITY the next UID to be given never falls. */
  lemma {:induction false} UidNextGrows(servers: seq<Server>, i: nat, k: nat, remote: Remote)
    requires ServerRun(servers) && i <= k < |servers| && Present(servers[i], remote)
    requires remote.mailbox in servers[k] && servers[k][remote.mailbox].uidvalidity == remote.uidvalidity
    ensures remote.uid < servers[k][remote.mailbox].uidNext
  {
    if i < k {
      UidvalidityGrows(servers, i, k - 1, remote.mailbox);
      assert Respects(servers[k - 1], servers[k - 1 + 1]);
      assert BoxRespects(servers[k - 1][remote.mailbox], servers[k][remote.mailbox]);
      UidNextGrows(servers, i, k - 1, remote);
    }
  }

  /** A mail that is there at both ends of a stretch was there all along. */
  lemma {:induction false} PresentBetween(servers: seq<Server>, i: nat, k: nat, j: nat, remote: Remote)
    requires ServerRun(servers) && i <= k <= j < |servers|
    requires Present(servers[i], remote) && Present(servers[j], remote)
    ensures Present(servers[k], remote)
    decreases j - k
  {
    if k < j {
      PresentBetween(servers, i, k + 1, j, remote);
      UidvalidityGrows(servers, i, k, remote.mailbox);
      assert Respects(servers[k], servers[k + 1]);
      assert BoxRespects(servers[k][remote.mailbox], servers[k + 1][remote.mailbox]);
      UidNextGrows(servers, i, k, remote);
    }
  }

  // ----- the commands of a plan -----

  datatype CommandPath = UidMove | CopyStoreDeletedUidExpunge

  datatype FlagMutation = Read | Unread | Starred | Unstarred

  datatype Plan =
    | Move(destination: string, path: CommandPath)
    | Flag(mutation: FlagMutation)
    | HardExpunge

  datatype Capabilities = Capabilities(moveSupported: bool, uidplus: bool)

  /** Without MOVE and UIDPLUS no plan is made: a plain EXPUNGE is never a fallback. */
  function PlanMove(destination: string, capabilities: Capabilities): (r: Result<Plan>)
    ensures r.Err? <==> !capabilities.moveSupported && !capabilities.uidplus
    ensures r.Ok? ==> r.value.Move? && r.value.destination == destination
    ensures r.Ok? ==> (Command.Expunge in Commands(r.value) ==> capabilities.uidplus)
    ensures r.Ok? ==> (MoveTo(destination) in Commands(r.value) <==> capabilities.moveSupported)
  {
    if capabilities.moveSupported then Ok(Move(destination, UidMove))
    else if capabilities.uidplus then Ok(Move(destination, CopyStoreDeletedUidExpunge))
    else Err
  }

  datatype Command =
    | CopyTo(destination: string)
    | StoreFlags(add: set<Flag>, remove: set<Flag>)
    | Expunge
    | MoveTo(destination: string)

  function FlagCommand(mutation: FlagMutation): Command {
    match mutation
    case Read => StoreFlags({Seen}, {})
    case Unread => StoreFlags({}, {Seen})
    case Starred => StoreFlags({Flagged}, {})
    case Unstarred => StoreFlags({}, {Flagged})
  }

  function Commands(plan: Plan): seq<Command> {
    match plan
    case Move(destination, UidMove) => [MoveTo(destination)]
    case Move(destination, CopyStoreDeletedUidExpunge) =>
      [CopyTo(destination), StoreFlags({Deleted}, {}), Command.Expunge]
    case Flag(mutation) => [FlagCommand(mutation)]
    case HardExpunge => [Command.Expunge]
  }

  function Append(server: Server, box: string, mail: Mail): Server
    requires box in server
  {
    var b := server[box];
    server[box := b.(uidNext := b.uidNext + 1, mails := b.mails[b.uidNext := mail])]
  }

  function Remove(server: Server, box: string, uid: nat): Server
    requires box in server
  {
    server[box := server[box].(mails := server[box].mails - {uid})]
  }

  /**
   One UID command on one UID of the selected mailbox. A UID that names no
   message is no error; a missing destination is. UID EXPUNGE removes the
   message only if it carries \Deleted (section 2.1 of RFC 4315); UID MOVE is
   atomic (section 3.2 of RFC 6851).
   */
  function Exec(server: Server, box: string, uid: nat, command: Command): Result<Server> {
    if box !in server then
      Err
    else
      var mails := server[box].mails;
      match command
      case CopyTo(destination) =>
        if destination !in server then Err
        else if uid !in mails then Ok(server)
        else Ok(Append(server, destination, mails[uid]))
      case StoreFlags(add, remove) =>
        if uid !in mails then Ok(server)
        else
          var mail := mails[uid].(flags := mails[uid].flags + add - remove);
          Ok(server[box := server[box].(mails := mails[uid := mail])])
      case Expunge =>
        if uid in mails && Deleted in mails[uid].flags then Ok(Remove(server, box, uid)) else Ok(server)
      case MoveTo(destination) =>
        if destination !in server then Err
        else if uid !in mails then Ok(server)
        else Ok(Remove(Append(server, destination, mails[uid]), box, uid))
  }

  /** A command fails only for want of the mailbox selected or the one it copies or moves to. */
  lemma {:induction false} ExecFailsIff(server: Server, box: string, uid: nat, command: Command)
    ensures Exec(server, box, uid, command).Err? <==>
              box !in server || ((command.CopyTo? || command.MoveTo?) && command.destination !in server)
  {
  }

  lemma {:induction false} ExecRespects(server: Server, box: string, uid: nat, command: Command)
    requires ValidServer(server)
    ensures Exec(server, box, uid, command).Ok? ==> Respects(server, Exec(server, box, uid, command).value)
  {
  }

  /**
   Mail other than `uid` of `box` stays as it is, and whatever is new is a copy
   of that one mail.
   */
  ghost predicate TouchesOnly(server: Server, server': Server, box: string, uid: nat) {
    && server'.Keys == server.Keys
    && forall b :: b in server ==>
         && server'[b].uidvalidity == server[b].uidvalidity
         && (forall u :: u in server[b].mails && (b != box || u != uid) ==>
               u in server'[b].mails && server'[b].mails[u] == server[b].mails[u])
         && (forall u :: u in server'[b].mails && u !in server[b].mails ==>
               IsCopy(server, server'[b].mails[u], box, uid))
  }

  predicate IsCopy(server: Server, mail: Mail, box: string, uid: nat) {
    box in server && uid in server[box].mails && mail.content == server[box].mails[uid].content
  }

  lemma {:induction false} AppendTouchesOnly(server: Server, box: string, uid: nat, destination: string)
    requires ValidServer(server) && box in server && uid in server[box].mails && destination in server
    ensures TouchesOnly(server, Append(server, destination, server[box].mails[uid]), box, uid)
    ensures TouchesOnly(server, Remove(Append(server, destination, server[box].mails[uid]), box, uid), box, uid)
  {
  }

  /** No command changes any mail but the one it names. */
  lemma {:induction false} ExecTouchesOnly(server: Server, box: string, uid: nat, command: Command)
    requires ValidServer(server)
    ensures Exec(server, box, uid, command).Ok? ==> TouchesOnly(server, Exec(server, box, uid, command).value, box, uid)
  {
    if (command.CopyTo? || command.MoveTo?) && command.destination in server && box in server &&
      uid in server[box].mails {
      AppendTouchesOnly(server, box, uid, command.destination);
    }
  }

  lemma {:induction false} NoMailNoChange(server: Server, box: string, uid: nat, command: Command)
    requires Exec(server, box, uid, command).Ok? && Exec(server, box, uid, command).value != server
    ensures box in server && uid in server[box].mails
  {
  }

  // ----- a move loses nothing -----

  predicate IsCopyAt(server: Server, destination: string, u: nat, box: string, uid: nat, content: Content) {
    destination in server && u in server[destination].mails && server[destination].mails[u].content == content &&
    (destination != box || u != uid)
  }

  /** The destination holds the content, as a mail other than `uid` of `box`. */
  predicate HoldsCopy(server: Server, destination: string, box: string, uid: nat, content: Content) {
    exists u :: destination in server && u in server[destination].mails &&
      IsCopyAt(server, destination, u, box, uid, content)
  }

  predicate HoldsAt(server: Server, box: string, uid: nat, content: Content) {
    box in server && uid in server[box].mails && server[box].mails[uid].content == content
  }

  /** What other clients may do meanwhile, short of expunging: deliver, change flags, create mailboxes. */
  ghost predicate Gains(server: Server, server': Server) {
    && ValidServer(server')
    && server.Keys <= server'.Keys
    && forall b, u :: b in server && u in server[b].mails ==>
         u in server'[b].mails && server'[b].mails[u].content == server[b].mails[u].content
  }

  /**
   One step of a move with `k` commands acknowledged: the next command is
   acknowledged; or it fails, or takes effect without being acknowledged, and
   the move is abandoned (`k` becomes the number of commands); or others act.
   */
  ghost predicate MoveStep(server: Server, k: nat, server': Server, k': nat, box: string, uid: nat, plan: Plan) {
    || (&& k < |Commands(plan)|
        && Exec(server, box, uid, Commands(plan)[k]) == Ok(server')
        && (k' == k + 1 || k' == |Commands(plan)|))
    || (server' == server && k' == |Commands(plan)|)
    || (Gains(server, server') && k' == k)
  }

  /**
   A move carried out in full takes the mail out of the source and leaves a
   copy in the destination; one whose UID names no mail changes nothing.
   */
  lemma {:induction false} CompletedMoveMoves(server: Server, box: string, uid: nat, plan: Plan)
    requires ValidServer(server) && plan.Move? && box in server
    requires After(server, box, uid, plan, |Commands(plan)|).Ok?
    ensures
      var server' := After(server, box, uid, plan, |Commands(plan)|).value;
      if uid in server[box].mails
      then box in server' && uid !in server'[box].mails
           && HoldsCopy(server', plan.destination, box, uid, server[box].mails[uid].content)
      else server' == server
  {
    var destination := plan.destination;
    var first := After(server, box, uid, plan, 1).value;
    assert Exec(server, box, uid, Commands(plan)[0]) == Ok(first) by {
      assert After(server, box, uid, plan, 0) == Ok(server);
    }
    if plan.path.CopyStoreDeletedUidExpunge? {
      var second := After(server, box, uid, plan, 2).value;
      assert Exec(first, box, uid, StoreFlags({Deleted}, {})) == Ok(second);
      assert After(server, box, uid, plan, 3) == Exec(second, box, uid, Command.Expunge);
    }
    if uid in server[box].mails {
      var server' := After(server, box, uid, plan, |Commands(plan)|).value;
      assert IsCopyAt(server', destination, server[destination].uidNext, box, uid, server[box].mails[uid].content);
    }
  }

  lemma {:induction false} AfterOne(server: Server, box: string, uid: nat, plan: Plan)
    requires |Commands(plan)| == 1
    ensures After(server, box, uid, plan, 1) == Exec(server, box, uid, Commands(plan)[0])
  {
    assert After(server, box, uid, plan, 0) == Ok(server);
  }

  /** A flag mutation carried out sets or clears its flag on the mail, and leaves content and other flags. */
  lemma {:induction false} CompletedFlagSets(server: Server, box: string, uid: nat, mutation: FlagMutation)
    requires After(server, box, uid, Flag(mutation), 1).Ok? && box in server && uid in server[box].mails
    ensures
      var server' := After(server, box, uid, Flag(mutation), 1).value;
      var mail := server[box].mails[uid];
      && box in server' && uid in server'[box].mails && server'[box].mails[uid].content == mail.content
      && server'[box].mails[uid].flags ==
           match mutation
           case Read => mail.flags + {Seen}
           case Unread => mail.flags - {Seen}
           case Starred => mail.flags + {Flagged}
           case Unstarred => mail.flags - {Flagged}
  {
    AfterOne(server, box, uid, Flag(mutation));
  }

  /** A hard expunge carried out takes the mail if it already carries \Deleted, and else changes nothing. */
  lemma {:induction false} CompletedExpunge(server: Server, box: string, uid: nat)
    requires After(server, box, uid, HardExpunge, 1).Ok?
    ensures
      var server' := After(server, box, uid, HardExpunge, 1).value;
      if box in server && uid in server[box].mails && Deleted in server[box].mails[uid].flags
      then box in server' && uid !in server'[box].mails && server'[box].mails == server[box].mails - {uid}
      else server' == server
  {
    AfterOne(server, box, uid, HardExpunge);
  }

  /** The read and starred state the archive records after a flag mutation. */
  function UpdatedReadState(readState: bool, mutation: FlagMutation): bool {
    match mutation
    case Read => true
    case Unread => false
    case _ => readState
  }

  function UpdatedStarredState(starred: bool, mutation: FlagMutation): bool {
    match mutation
    case Starred => true
    case Unstarred => false
    case _ => starred
  }

  datatype MovePoint = MovePoint(server: Server, acknowledged: nat)

  ghost predicate IsMove(run: seq<MovePoint>, box: string, uid: nat, plan: Plan) {
    && run != [] && ValidServer(run[0].server) && run[0].acknowledged == 0
    && forall i :: 0 <= i < |run| - 1 ==>
         MoveStep(run[i].server, run[i].acknowledged, run[i + 1].server, run[i + 1].acknowledged, box, uid, plan)
  }

  /** Until the copy is acknowledged the source still holds the mail; afterwards the destination does. */
  ghost predicate MoveInv(p: MovePoint, box: string, uid: nat, plan: Plan, content: Content)
    requires plan.Move?
  {
    && ValidServer(p.server)
    && (if p.acknowledged == 0 then HoldsAt(p.server, box, uid, content)
        else if p.acknowledged < |Commands(plan)| then HoldsCopy(p.server, plan.destination, box, uid, content)
        else HoldsAt(p.server, box, uid, content) || HoldsCopy(p.server, plan.destination, box, uid, content))
  }

  lemma {:induction false} MoveCommandKeeps(
      server: Server, k: nat, server': Server, box: string, uid: nat, plan: Plan, content: Content)
    requires plan.Move? && k < |Commands(plan)| && MoveInv(MovePoint(server, k), box, uid, plan, content)
    requires Exec(server, box, uid, Commands(plan)[k]) == Ok(server')
    ensures HoldsCopy(server', plan.destination, box, uid, content)
  {
    var destination := plan.destination;
    if k == 0 {
      assert IsCopyAt(server', destination, server[destination].uidNext, box, uid, content);
    } else {
      var u :| destination in server && u in server[destination].mails &&
        IsCopyAt(server, destination, u, box, uid, content);
      assert IsCopyAt(server', destination, u, box, uid, content);
    }
  }

  lemma {:induction false} MoveStepKeeps(
      p: MovePoint, p': MovePoint, box: string, uid: nat, plan: Plan, content: Content)
    requires plan.Move? && MoveInv(p, box, uid, plan, content)
    requires MoveStep(p.server, p.acknowledged, p'.server, p'.acknowledged, box, uid, plan)
    ensures MoveInv(p', box, uid, plan, content)
  {
    var server, server', k, destination := p.server, p'.server, p.acknowledged, plan.destination;
    if k < |Commands(plan)| && Exec(server, box, uid, Commands(plan)[k]) == Ok(server') {
      ExecRespects(server, box, uid, Commands(plan)[k]);
      MoveCommandKeeps(server, k, server', box, uid, plan, content);
    } else if Gains(server, server') && HoldsCopy(server, destination, box, uid, content) {
      var u :| destination in server && u in server[destination].mails &&
        IsCopyAt(server, destination, u, box, uid, content);
      assert IsCopyAt(server', destination, u, box, uid, content);
    }
  }

  /**
   Whatever command of a move fails, or goes unacknowledged, the mail is in the
   source or in the destination in every state.
   */
  lemma {:induction false} MoveLosesNothing(
      run: seq<MovePoint>, i: nat, box: string, uid: nat, plan: Plan, content: Content)
    requires plan.Move? && IsMove(run, box, uid, plan) && i < |run|
    requires HoldsAt(run[0].server, box, uid, content)
    ensures MoveInv(run[i], box, uid, plan, content)
    ensures HoldsAt(run[i].server, box, uid, content) || HoldsCopy(run[i].server, plan.destination, box, uid, content)
  {
    if i > 0 {
      MoveLosesNothing(run, i - 1, box, uid, plan, content);
      assert MoveStep(run[i - 1].server, run[i - 1].acknowledged, run[i - 1 + 1].server, run[i - 1 + 1].acknowledged,
        box, uid, plan);
      MoveStepKeeps(run[i - 1], run[i], box, uid, plan, content);
    }
  }

  /** No other mail leaves any mailbox, even one that already carries \Deleted. */
  lemma {:induction false} MoveTakesNothingElse(
      run: seq<MovePoint>, i: nat, box: string, uid: nat, plan: Plan, b: string, u: nat, content: Content)
    requires IsMove(run, box, uid, plan) && i < |run|
    requires b != box || u != uid
    requires HoldsAt(run[0].server, b, u, content)
    ensures ValidServer(run[i].server) && HoldsAt(run[i].server, b, u, content)
  {
    if i > 0 {
      MoveTakesNothingElse(run, i - 1, box, uid, plan, b, u, content);
      var server, server', k := run[i - 1].server, run[i].server, run[i - 1].acknowledged;
      assert MoveStep(run[i - 1].server, run[i - 1].acknowledged, run[i - 1 + 1].server, run[i - 1 + 1].acknowledged,
        box, uid, plan);
      if k < |Commands(plan)| && Exec(server, box, uid, Commands(plan)[k]) == Ok(server') {
        ExecRespects(server, box, uid, Commands(plan)[k]);
        ExecTouchesOnly(server, box, uid, Commands(plan)[k]);
      }
    }
  }

  // ----- the client's session -----

  /** The server after the first `k` commands of a plan. */
  function After(server: Server, box: string, uid: nat, plan: Plan, k: nat): Result<Server>
    requires k <= |Commands(plan)|
  {
    if k == 0 then Ok(server)
    else
      match After(server, box, uid, plan, k - 1)
      case Err => Err
      case Ok(before) => Exec(before, box, uid, Commands(plan)[k - 1])
  }

  /** A plan stops at its first error. */
  lemma {:induction false} AfterStops(server: Server, box: string, uid: nat, plan: Plan, k: nat, l: nat)
    requires k <= l <= |Commands(plan)| && After(server, box, uid, plan, k).Err?
    ensures After(server, box, uid, plan, l).Err?
  {
    if k < l {
      AfterStops(server, box, uid, plan, k, l - 1);
    }
  }

  /** `verify_uidvalidity`: the selected mailbox must report exactly the stored value. */
  predicate VerifyUidvalidity(remote: Remote, current: Option<nat>) {
    current == Some(remote.uidvalidity)
  }

  /** What a failure left behind: the commands up to some point, the last of them perhaps unacknowledged. */
  ghost predicate PartlyDone(server: Server, server': Server, box: string, uid: nat, plan: Plan) {
    exists k :: 0 <= k <= |Commands(plan)| && After(server, box, uid, plan, k) == Ok(server')
  }

  class Session {
    var server: Server

    constructor (server: Server)
      ensures this.server == server
    {
      this.server := server;
    }

    /** Issues one command; it may take effect although the call fails. */
    method Issue(box: string, uid: nat, command: Command, uninterrupted: bool) returns (ok: bool)
      modifies this
      ensures ok ==> Exec(old(server), box, uid, command) == Ok(server)
      ensures server == old(server) || Exec(old(server), box, uid, command) == Ok(server)
      ensures uninterrupted ==> (ok <==> Exec(old(server), box, uid, command).Ok?)
    {
      var r := Exec(server, box, uid, command);
      if r.Err? {
        return false;
      }
      var unsent := Fails(uninterrupted);
      if unsent {
        return false;
      }
      server := r.value;
      var unanswered := Fails(uninterrupted);
      return !unanswered;
    }

    /** `execute_plan`: select, compare UIDVALIDITY, then the plan's commands in order. */
    method ExecutePlan(remote: Remote, plan: Plan, uninterrupted: bool) returns (ok: bool)
      modifies this
      ensures ok ==> After(old(server), remote.mailbox, remote.uid, plan, |Commands(plan)|) == Ok(server)
      ensures ok ==> remote.mailbox in old(server) && old(server)[remote.mailbox].uidvalidity == remote.uidvalidity
      ensures PartlyDone(old(server), server, remote.mailbox, remote.uid, plan)
      ensures remote.mailbox !in old(server) || old(server)[remote.mailbox].uidvalidity != remote.uidvalidity ==>
                server == old(server) && !ok
      ensures uninterrupted ==>
                (ok <==>
                 && remote.mailbox in old(server) && old(server)[remote.mailbox].uidvalidity == remote.uidvalidity
                 && After(old(server), remote.mailbox, remote.uid, plan, |Commands(plan)|).Ok?)
    {
      assert After(server, remote.mailbox, remote.uid, plan, 0) == Ok(server);
      if remote.mailbox !in server {
        return false;
      }
      if !VerifyUidvalidity(remote, Some(server[remote.mailbox].uidvalidity)) {
        return false;
      }
      ok := ExecuteSelected(remote, plan, uninterrupted);
    }

    method ExecuteSelected(remote: Remote, plan: Plan, uninterrupted: bool) returns (ok: bool)
      modifies this
      ensures ok ==> After(old(server), remote.mailbox, remote.uid, plan, |Commands(plan)|) == Ok(server)
      ensures PartlyDone(old(server), server, remote.mailbox, remote.uid, plan)
      ensures uninterrupted ==>
                (ok <==> After(old(server), remote.mailbox, remote.uid, plan, |Commands(plan)|).Ok?)
    {
      assert After(server, remote.mailbox, remote.uid, plan, 0) == Ok(server);
      match plan {
        case Move(destination, path) =>
          ok := ExecuteMove(remote, destination, path, uninterrupted);
        case Flag(mutation) =>
          ok := Issue(remote.mailbox, remote.uid, FlagCommand(mutation), uninterrupted);
          assert server != old(server) ==> After(old(server), remote.mailbox, remote.uid, plan, 1) == Ok(server);
        case HardExpunge =>
          ok := Issue(remote.mailbox, remote.uid, Command.Expunge, uninterrupted);
          assert server != old(server) ==> After(old(server), remote.mailbox, remote.uid, plan, 1) == Ok(server);
      }
    }

    method ExecuteMove(remote: Remote, destination: string, path: CommandPath, uninterrupted: bool)
      returns (ok: bool)
      modifies this
      ensures ok ==>
                var plan := Move(destination, path);
                After(old(server), remote.mailbox, remote.uid, plan, |Commands(plan)|) == Ok(server)
      ensures PartlyDone(old(server), server, remote.mailbox, remote.uid, Move(destination, path))
      ensures uninterrupted ==>
                var plan := Move(destination, path);
                ok <==> After(old(server), remote.mailbox, remote.uid, plan, |Commands(plan)|).Ok?
    {
      ghost var plan := Move(destination, path);
      assert After(server, remote.mailbox, remote.uid, plan, 0) == Ok(server);
      match path {
        case UidMove =>
          ok := Issue(remote.mailbox, remote.uid, MoveTo(destination), uninterrupted);
          assert server != old(server) ==> After(old(server), remote.mailbox, remote.uid, plan, 1) == Ok(server);
        case CopyStoreDeletedUidExpunge =>
          ok := Issue(remote.mailbox, remote.uid, CopyTo(destination), uninterrupted);
          assert server != old(server) || ok ==> After(old(server), remote.mailbox, remote.uid, plan, 1) == Ok(server);
          if !ok {
            if uninterrupted {
              AfterStops(old(server), remote.mailbox, remote.uid, plan, 1, 3);
            }
            return;
          }
          ok := Issue(remote.mailbox, remote.uid, StoreFlags({Deleted}, {}), uninterrupted);
          assert After(old(server), remote.mailbox, remote.uid, plan, 1) == Ok(server) ||
                 After(old(server), remote.mailbox, remote.uid, plan, 2) == Ok(server);
          if !ok {
            if uninterrupted {
              AfterStops(old(server), remote.mailbox, remote.uid, plan, 2, 3);
            }
            return;
          }
          assert After(old(server), remote.mailbox, remote.uid, plan, 2) == Ok(server);
          ok := Issue(remote.mailbox, remote.uid, Command.Expunge, uninterrupted);
          assert After(old(server), remote.mailbox, remote.uid, plan, 2) == Ok(server) ||
                 After(old(server), remote.mailbox, remote.uid, plan, 3) == Ok(server);
      }
    }
  }
}
