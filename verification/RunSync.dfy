/**
 Convergence for the archives that runs of the whole system reach: what the
 comparison relies on is kept by every run, and what it lacks is one condition
 on rows of other mailboxes.
 */
module RunSync {
  import opened Basics
  import opened Storage
  import opened ImapServer
  import opened RemoteSafety
  import opened Convergence
  import Sync

  /** A listing of the mailbox as it is now, with the server's bytes as bodies. */
  ghost predicate CurrentFullListing(
      s: System, mailbox: string, listing: seq<Sync.RemoteMessage>, body: Sync.RemoteMessage -> Bytes,
      parse: Bytes -> Option<string>)
  {
    && mailbox in s.server
    && Sync.FullListing(listing, body, parse)
    && forall r :: r in listing ==> IsCurrent(s.server[mailbox], r, body(r))
  }

  predicate IsCurrent(mailbox: Mailbox, r: Sync.RemoteMessage, data: Bytes) {
    && r.uidvalidity == Some(mailbox.uidvalidity) && r.uid in mailbox.mails
    && data == mailbox.mails[r.uid].content.header + mailbox.mails[r.uid].content.text
  }

  /** The account stores full bodies, and always has. */
  ghost predicate FullMode(s: System) {
    forall f :: f in s.fetched ==> f.mode.Full?
  }

  /** A row of a run that is bound to a listed mail holds that mail's bytes, although workers never check. */
  lemma {:induction false} OwnRowHoldsItsMail(
      run: seq<System>, i: nat, folder: Sync.Folder, r: Sync.RemoteMessage, data: Bytes, id: MessageId,
      parse: Bytes -> Option<string>)
    requires IsRun(run, parse) && i < |run| && FullMode(run[i])
    requires folder.account == run[i].account && folder.mailbox in run[i].server
    requires IsCurrent(run[i].server[folder.mailbox], r, data)
    requires Rowed(run[i].archive, folder, r, id) && Sync.Names(run[i].archive, folder, r, id)
    ensures run[i].archive.messages[id].content == Digest(data) && HasSize(run[i].archive, id, |data|)
  {
    var s := run[i];
    RunsKeepInv(run, i, parse);
    assert s.archive.bindings[id].remote == RemoteOf(s, id);
    CurrentTakenIsThere(s, id);
    assert TakenOk(s, id);
    assert IdAgrees(s.archive, id) && FileHolds(s.archive, s.archive.messages[id].content);
  }

  lemma {:induction false} RunArchiveIsFaithful(
      run: seq<System>, i: nat, folder: Sync.Folder, listing: seq<Sync.RemoteMessage>,
      body: Sync.RemoteMessage -> Bytes, parse: Bytes -> Option<string>)
    requires IsRun(run, parse) && i < |run| && FullMode(run[i]) && folder.account == run[i].account
    requires CurrentFullListing(run[i], folder.mailbox, listing, body, parse)
    ensures Faithful(run[i].archive, folder, listing, body)
  {
    var a := run[i].archive;
    forall id, r | r in listing && Rowed(a, folder, r, id) && Sync.Names(a, folder, r, id)
      ensures a.messages[id].content == Digest(body(r)) && HasSize(a, id, r.size)
    {
      assert IsCurrent(run[i].server[folder.mailbox], r, body(r));
      OwnRowHoldsItsMail(run, i, folder, r, body(r), id, parse);
    }
  }

  /**
   A row of the role bound to a message of another mailbox that has the listed
   UIDVALIDITY and UID, and another size.
   */
  predicate StrayRow(
      a: Archive, folder: Sync.Folder, batch: seq<Sync.RemoteMessage>, r: Sync.RemoteMessage, id: MessageId)
  {
    && Rowed(a, folder, r, id) && a.bindings[id].remote.mailbox != folder.mailbox
    && !IndexedAfter(a, folder, batch, r)
    && |a.messages[id].content.data| != r.size
  }

  lemma {:induction false} ForeignClashIsStray(
      run: seq<System>, i: nat, folder: Sync.Folder, batch: seq<Sync.RemoteMessage>,
      body: Sync.RemoteMessage -> Bytes, r: Sync.RemoteMessage, id: MessageId, parse: Bytes -> Option<string>)
    requires IsRun(run, parse) && i < |run| && folder.account == run[i].account
    ensures Foreign(run[i].archive, folder, r, id) && Clash(run[i].archive, folder, batch, body, r, id) <==>
              StrayRow(run[i].archive, folder, batch, r, id)
  {
    var s := run[i];
    RunsKeepInv(run, i, parse);
    if Rowed(s.archive, folder, r, id) {
      assert s.archive.bindings[id].remote == RemoteOf(s, id);
      assert FileHolds(s.archive, s.archive.messages[id].content);
    }
  }

  /**
   At any point of any run, a full sync of a mailbox as it is then settles
   everything it lists if and only if no active row of the role is bound to a
   message of another mailbox with the same UIDVALIDITY and UID and another
   size, the Message-ID index not settling it.
   */
  lemma {:induction false} RunSyncConvergesIff(
      run: seq<System>, i: nat, folder: Sync.Folder, listing: seq<Sync.RemoteMessage>,
      batch: seq<Sync.RemoteMessage>, order: seq<MessageId>, body: Sync.RemoteMessage -> Bytes,
      parse: Bytes -> Option<string>)
    requires IsRun(run, parse) && i < |run| && FullMode(run[i]) && folder.account == run[i].account
    requires CurrentFullListing(run[i], folder.mailbox, listing, body, parse)
    requires Sync.Lists(order, run[i].archive, folder.localRole)
    requires forall r :: r in batch ==> r in listing
    requires forall r :: r in Sync.Missing(run[i].archive, listing, folder, order) ==> r in batch
    requires Sync.StoreAll(run[i].archive, folder, batch, body, parse).Ok?
    ensures Converges(Sync.StoreAll(run[i].archive, folder, batch, body, parse).value, folder, listing) <==>
              forall r, id :: r in listing ==> !StrayRow(run[i].archive, folder, batch, r, id)
  {
    var a := run[i].archive;
    RunsKeepInv(run, i, parse);
    RunArchiveIsFaithful(run, i, folder, listing, body, parse);
    SyncConverges(a, folder, listing, batch, order, body, parse);
    forall r, id
      ensures Foreign(a, folder, r, id) && Clash(a, folder, batch, body, r, id) <==> StrayRow(a, folder, batch, r, id)
    {
      ForeignClashIsStray(run, i, folder, batch, body, r, id, parse);
    }
  }

  // ----- rounds -----

  /** An archive of a run is calm, and so settled by enough rounds, if and only if it has no such row. */
  lemma {:induction false} CalmIffNoStray(
      run: seq<System>, i: nat, folder: Sync.Folder, listing: seq<Sync.RemoteMessage>,
      body: Sync.RemoteMessage -> Bytes, parse: Bytes -> Option<string>)
    requires IsRun(run, parse) && i < |run| && FullMode(run[i]) && folder.account == run[i].account
    requires CurrentFullListing(run[i], folder.mailbox, listing, body, parse)
    ensures Calm(run[i].archive, folder, listing) <==>
              forall r, id :: r in listing ==> !StrayRow(run[i].archive, folder, [], r, id)
  {
    var a := run[i].archive;
    RunArchiveIsFaithful(run, i, folder, listing, body, parse);
    forall r, id | r in listing && Rowed(a, folder, r, id) && !Indexed(a, folder, r)
      ensures SpeaksWell(a, folder, r, id) <==> !StrayRow(a, folder, [], r, id)
    {
      RowOfRun(run, i, folder, r, id, parse);
    }
    assert forall r, id :: StrayRow(a, folder, [], r, id) ==> Rowed(a, folder, r, id) && !Indexed(a, folder, r);
  }

  /** A row of a run is its message's own or bound to another mailbox, and its file is intact. */
  lemma {:induction false} RowOfRun(
      run: seq<System>, i: nat, folder: Sync.Folder, r: Sync.RemoteMessage, id: MessageId,
      parse: Bytes -> Option<string>)
    requires IsRun(run, parse) && i < |run| && folder.account == run[i].account
    requires Rowed(run[i].archive, folder, r, id)
    ensures Foreign(run[i].archive, folder, r, id) <==> run[i].archive.bindings[id].remote.mailbox != folder.mailbox
    ensures HasSize(run[i].archive, id, |run[i].archive.messages[id].content.data|)
  {
    var s := run[i];
    RunsKeepInv(run, i, parse);
    assert s.archive.bindings[id].remote == RemoteOf(s, id);
    assert FileHolds(s.archive, s.archive.messages[id].content);
  }

  /**
   From the archive of any point of any run, rounds under a limit N end after
   ceil(n / N) of them if it has no such row.
   */
  lemma {:induction false} RunRoundsEnd(
      run: seq<System>, i: nat, archives: seq<Archive>, k: nat, folder: Sync.Folder,
      listing: seq<Sync.RemoteMessage>, limit: nat, n: nat, order: seq<MessageId>,
      body: Sync.RemoteMessage -> Bytes, parse: Bytes -> Option<string>)
    requires IsRun(run, parse) && i < |run| && FullMode(run[i]) && folder.account == run[i].account
    requires CurrentFullListing(run[i], folder.mailbox, listing, body, parse)
    requires IsRounds(archives, folder, listing, limit, body, parse) && archives[0] == run[i].archive
    requires AtMostMissing(archives[0], folder, listing, n)
    requires k < |archives| && n <= k * limit && Sync.Lists(order, archives[k], folder.localRole)
    requires forall r, id :: r in listing ==> !StrayRow(run[i].archive, folder, [], r, id)
    ensures Sync.Missing(archives[k], listing, folder, order) == []
  {
    RunsKeepInv(run, i, parse);
    CalmIffNoStray(run, i, folder, listing, body, parse);
    forall r | r in listing
      ensures !Sync.Anonymous(r)
    {
      assert IsCurrent(run[i].server[folder.mailbox], r, body(r));
    }
    RoundsEnd(archives, k, folder, listing, limit, n, order, body, parse);
  }

  /**
   For mail without Message-IDs that is exact: after enough rounds nothing is
   missing, whatever the dates, if and only if the archive they started from
   had no such row. Otherwise no number of rounds is enough.
   */
  lemma {:induction false} RunRoundsEndIff(
      run: seq<System>, i: nat, archives: seq<Archive>, k: nat, folder: Sync.Folder,
      listing: seq<Sync.RemoteMessage>, limit: nat, n: nat, body: Sync.RemoteMessage -> Bytes,
      parse: Bytes -> Option<string>)
    requires IsRun(run, parse) && i < |run| && FullMode(run[i]) && folder.account == run[i].account
    requires CurrentFullListing(run[i], folder.mailbox, listing, body, parse)
    requires IsRounds(archives, folder, listing, limit, body, parse) && archives[0] == run[i].archive
    requires AtMostMissing(archives[0], folder, listing, n) && k < |archives| && n <= k * limit
    requires forall r :: r in listing ==> r.rfcId.None?
    ensures AtMostMissing(archives[k], folder, listing, 0) <==>
              forall r, id :: r in listing ==> !StrayRow(run[i].archive, folder, [], r, id)
  {
    if r, id :| r in listing && StrayRow(run[i].archive, folder, [], r, id) {
      RunsKeepInv(run, i, parse);
      RowOfRun(run, i, folder, r, id, parse);
      LastingRowNeverEnds(archives, k, folder, listing, limit, r, id, body, parse);
    } else {
      forall order | Sync.Lists(order, archives[k], folder.localRole)
        ensures |Sync.Missing(archives[k], listing, folder, order)| <= 0
      {
        RunRoundsEnd(run, i, archives, k, folder, listing, limit, n, order, body, parse);
      }
    }
  }
}
