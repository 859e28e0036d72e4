/**
 One folder sync: compare a remote listing with the archive, truncate what is
 missing to the limit, store it, and compare again.
 */
module Sync {
  import opened Basics
  import opened Storage
  import Decimal

  datatype RemoteMessage = RemoteMessage(
    uid: nat, uidvalidity: Option<nat>, size: nat, rfcId: Option<string>, readState: bool, starred: bool)

  datatype DedupeScope = LocalFolder | AllFolders

  /** What a sync is for; `parse` and `body` are header parsing and what the server returns for a message. */
  datatype Folder = Folder(account: string, mailbox: string, localRole: string, scope: DedupeScope)

  // ----- the two indexes of the archive -----

  predicate ActiveIn(a: Archive, localRole: string, id: MessageId) {
    id in a.messages && a.messages[id].localRole == localRole && !a.messages[id].deleted
  }

  /** A listing of a role names each of its active rows once, in an order that may depend on dates. */
  ghost predicate Lists(order: seq<MessageId>, a: Archive, localRole: string) {
    && (forall id :: id in order <==> ActiveIn(a, localRole, id))
    && forall i, j :: 0 <= i < j < |order| ==> order[i] != order[j]
  }

  datatype LocalKey = ById(id: MessageId) | ByRemote(key: string)

  function KeyOf(a: Archive, localRole: string, id: MessageId): LocalKey {
    if id in a.bindings then
      ByRemote(Decimal.RemoteSizeKey(localRole, a.bindings[id].remote.uidvalidity, a.bindings[id].remote.uid))
    else
      ById(id)
  }

  /** A missing blob file counts as empty. */
  function FileSize(a: Archive, content: Digest): nat {
    if content in a.files then |a.files[content]| else 0
  }

  /** The rows of a role collected into a map: a later row replaces an earlier one with the same key. */
  function LocalSizes(a: Archive, localRole: string, order: seq<MessageId>): map<LocalKey, nat>
    requires forall id :: id in order ==> id in a.messages
  {
    if order == [] then
      map[]
    else
      var last := order[|order| - 1];
      LocalSizes(a, localRole, order[..|order| - 1])[KeyOf(a, localRole, last) := FileSize(a, a.messages[last].content)]
  }

  function RfcIds(a: Archive, localRole: string): set<string> {
    set id | id in a.messages && ActiveIn(a, localRole, id) && a.messages[id].content in a.blobs
      && a.blobs[a.messages[id].content].Some? :: a.blobs[a.messages[id].content].value
  }

  function RfcIndex(a: Archive, localRole: string, scope: DedupeScope): set<string> {
    match scope
    case LocalFolder => RfcIds(a, localRole)
    case AllFolders => RfcIds(a, localRole) + RfcIds(a, "inbox") + RfcIds(a, "sent") + RfcIds(a, "drafts")
  }

  // ----- what is missing -----

  predicate Covered(sizes: map<LocalKey, nat>, index: set<string>, localRole: string, r: RemoteMessage) {
    || (r.rfcId.Some? && r.rfcId.value in index)
    || (r.uidvalidity.Some? &&
        var key := ByRemote(Decimal.RemoteSizeKey(localRole, r.uidvalidity.value, r.uid));
        key in sizes && sizes[key] == r.size)
  }

  function Uncovered(remotes: seq<RemoteMessage>, sizes: map<LocalKey, nat>, index: set<string>, localRole: string)
    : seq<RemoteMessage>
  {
    if remotes == [] then
      []
    else
      var front := Uncovered(remotes[..|remotes| - 1], sizes, index, localRole);
      var last := remotes[|remotes| - 1];
      if Covered(sizes, index, localRole, last) then front else front + [last]
  }

  function Missing(a: Archive, remotes: seq<RemoteMessage>, folder: Folder, order: seq<MessageId>): seq<RemoteMessage>
    requires forall id :: id in order ==> id in a.messages
  {
    Uncovered(remotes, LocalSizes(a, folder.localRole, order), RfcIndex(a, folder.localRole, folder.scope),
      folder.localRole)
  }

  function IsCovered(sizes: map<LocalKey, nat>, index: set<string>, localRole: string): RemoteMessage -> bool {
    (r: RemoteMessage) => Covered(sizes, index, localRole, r)
  }

  /** `part` is what stands in `whole` at the positions `at`, which are those of all messages not covered, in order. */
  ghost predicate Leaves(
      whole: seq<RemoteMessage>, covered: RemoteMessage -> bool, at: seq<nat>, part: seq<RemoteMessage>)
  {
    && |at| == |part|
    && (forall k :: 0 <= k < |at| ==> at[k] < |whole| && part[k] == whole[at[k]])
    && (forall j, k :: 0 <= j < k < |at| ==> at[j] < at[k])
    && (forall i: nat :: i < |whole| && !covered(whole[i]) ==> i in at)
    && forall k :: 0 <= k < |at| ==> !covered(whole[at[k]])
  }

  lemma {:induction false} LeavesOneMore(
      whole: seq<RemoteMessage>, covered: RemoteMessage -> bool, at: seq<nat>, part: seq<RemoteMessage>)
    requires whole != [] && Leaves(whole[..|whole| - 1], covered, at, part)
    ensures
      var n := |whole| - 1;
      if covered(whole[n]) then Leaves(whole, covered, at, part)
      else Leaves(whole, covered, at + [n], part + [whole[n]])
  {
    var n := |whole| - 1;
    forall i: nat | i < n && !covered(whole[i])
      ensures i in at && i in at + [n]
    {
      assert whole[..n][i] == whole[i];
    }
    assert (at + [n])[|at|] == n;
  }

  /** What is missing stands in the listing's order, once for each position that is not covered. */
  lemma {:induction false} UncoveredInOrder(
      remotes: seq<RemoteMessage>, sizes: map<LocalKey, nat>, index: set<string>, localRole: string)
    ensures exists at: seq<nat> ::
              Leaves(remotes, IsCovered(sizes, index, localRole), at, Uncovered(remotes, sizes, index, localRole))
  {
    var covered := IsCovered(sizes, index, localRole);
    if remotes == [] {
      assert Leaves(remotes, covered, [], Uncovered(remotes, sizes, index, localRole));
    } else {
      var front := remotes[..|remotes| - 1];
      UncoveredInOrder(front, sizes, index, localRole);
      var at: seq<nat> :| Leaves(front, covered, at, Uncovered(front, sizes, index, localRole));
      LeavesOneMore(remotes, covered, at, Uncovered(front, sizes, index, localRole));
      var n := |remotes| - 1;
      assert Leaves(remotes, covered, if covered(remotes[n]) then at else at + [n],
                    Uncovered(remotes, sizes, index, localRole));
    }
  }

  /** The loop of `find_missing`. */
  method FindMissing(a: Archive, remotes: seq<RemoteMessage>, folder: Folder, order: seq<MessageId>)
    returns (missing: seq<RemoteMessage>)
    requires forall id :: id in order ==> id in a.messages
    ensures missing == Missing(a, remotes, folder, order)
    ensures forall r :: r in missing ==> r in remotes
  {
    var sizes := LocalSizes(a, folder.localRole, order);
    var index := RfcIndex(a, folder.localRole, folder.scope);
    missing := [];
    for i := 0 to |remotes|
      invariant missing == Uncovered(remotes[..i], sizes, index, folder.localRole)
      invariant forall r :: r in missing ==> r in remotes
    {
      assert remotes[..i + 1][..i] == remotes[..i];
      var remote := remotes[i];
      if remote.rfcId.Some? && remote.rfcId.value in index {
        continue;
      }
      if remote.uidvalidity.None? {
        missing := missing + [remote];
        continue;
      }
      var key := ByRemote(Decimal.RemoteSizeKey(folder.localRole, remote.uidvalidity.value, remote.uid));
      if key in sizes && sizes[key] == remote.size {
        continue;
      }
      missing := missing + [remote];
    }
    assert remotes[..|remotes|] == remotes;
  }

  function Truncated(missing: seq<RemoteMessage>, limit: Option<nat>): seq<RemoteMessage> {
    if limit.Some? && limit.value < |missing| then missing[..limit.value] else missing
  }

  /** A limit takes the first so many, or all there are. */
  lemma {:induction false} TruncatedIsPrefix(missing: seq<RemoteMessage>, limit: Option<nat>)
    ensures Truncated(missing, limit) <= missing
    ensures limit.None? ==> |Truncated(missing, limit)| == |missing|
    ensures limit.Some? ==>
              |Truncated(missing, limit)| == if limit.value <= |missing| then limit.value else |missing|
  {
  }

  // ----- storing -----

  function StoreRequest(folder: Folder, r: RemoteMessage): Request {
    Request(folder.account, folder.localRole, r.readState, r.starred, None, "remote_uid:" + Decimal.Print(r.uid),
      if r.uidvalidity.Some? then Some(Remote(folder.account, folder.mailbox, r.uidvalidity.value, r.uid)) else None)
  }

  function IdFor(folder: Folder, r: RemoteMessage, data: Bytes): MessageId {
    IngestMessageId(StoreRequest(folder, r), Digest(data))
  }

  /** `store_message` for each of `batch` in turn, stopping at the first the archive refuses. */
  function StoreAll(
      a: Archive, folder: Folder, batch: seq<RemoteMessage>, body: RemoteMessage -> Bytes,
      parse: Bytes -> Option<string>)
    : Result<Archive>
    decreases |batch|
  {
    if batch == [] then
      Ok(a)
    else if !Admits(a, StoreRequest(folder, batch[0]), body(batch[0])) then
      Err
    else
      StoreAll(Ingest(a, StoreRequest(folder, batch[0]), body(batch[0]), parse), folder, batch[1..], body, parse)
  }

  /** The row of a stored message: its bytes, the folder's role, the listed flags, and where it came from. */
  predicate Holds(a: Archive, folder: Folder, r: RemoteMessage, data: Bytes) {
    var id := IdFor(folder, r, data);
    && id in a.messages && a.messages[id].content == Digest(data) && a.messages[id].localRole == folder.localRole
    && a.messages[id].readState == r.readState && a.messages[id].starred == r.starred && !a.messages[id].deleted
    && Digest(data) in a.files && a.files[Digest(data)] == data
    && (r.uidvalidity.Some? ==>
          && id in a.bindings && !a.bindings[id].stale
          && a.bindings[id].remote == Remote(folder.account, folder.mailbox, r.uidvalidity.value, r.uid))
  }

  lemma {:induction false} UidsTellIdsApart(
      folder: Folder, r: RemoteMessage, data: Bytes, r': RemoteMessage, data': Bytes)
    requires r.uid != r'.uid
    ensures IdFor(folder, r, data) != IdFor(folder, r', data')
  {
    var x, y := Decimal.Print(r.uid), Decimal.Print(r'.uid);
    if "remote_uid:" + x == "remote_uid:" + y {
      assert x == ("remote_uid:" + x)[11..] && y == ("remote_uid:" + y)[11..];
      Decimal.PrintInjective(r.uid, r'.uid);
    }
  }

  /** A batch of a listing ends with every one of its messages held, and keeps those held before. */
  lemma {:induction false} StoreAllHolds(
      a: Archive, folder: Folder, listing: seq<RemoteMessage>, batch: seq<RemoteMessage>, body: RemoteMessage -> Bytes,
      parse: Bytes -> Option<string>, r: RemoteMessage)
    requires DistinctUids(listing) && r in listing && forall x :: x in batch ==> x in listing
    requires StoreAll(a, folder, batch, body, parse).Ok? && (r in batch || Holds(a, folder, r, body(r)))
    ensures Holds(StoreAll(a, folder, batch, body, parse).value, folder, r, body(r))
    decreases |batch|
  {
    if batch != [] {
      var first := batch[0];
      var a1 := Ingest(a, StoreRequest(folder, first), body(first), parse);
      assert first in batch && forall x :: x in batch <==> x == first || x in batch[1..];
      if first != r {
        UidsTellIdsApart(folder, first, body(first), r, body(r));
      }
      StoreAllHolds(a1, folder, listing, batch[1..], body, parse, r);
    }
  }

  /** Storing adds at most one row for each message of the batch. */
  lemma {:induction false} StoreAllAdds(
      a: Archive, folder: Folder, batch: seq<RemoteMessage>, body: RemoteMessage -> Bytes,
      parse: Bytes -> Option<string>)
    requires StoreAll(a, folder, batch, body, parse).Ok?
    ensures
      var a' := StoreAll(a, folder, batch, body, parse).value;
      a.messages.Keys <= a'.messages.Keys && |a'.messages.Keys - a.messages.Keys| <= |batch|
    decreases |batch|
  {
    if batch != [] {
      var a1 := Ingest(a, StoreRequest(folder, batch[0]), body(batch[0]), parse);
      var a', id := StoreAll(a, folder, batch, body, parse).value, IdFor(folder, batch[0], body(batch[0]));
      StoreAllAdds(a1, folder, batch[1..], body, parse);
      var later := a'.messages.Keys - a1.messages.Keys;
      if id in a.messages {
        assert a'.messages.Keys - a.messages.Keys == later;
      } else {
        assert a'.messages.Keys - a.messages.Keys == later + {id};
      }
    }
  }

  // ----- listings -----

  /** Within one UIDVALIDITY a listing names a UID once. */
  ghost predicate DistinctUids(listing: seq<RemoteMessage>) {
    forall r, r' :: r in listing && r' in listing && r.uid == r'.uid ==> r == r'
  }

  /** A listing that tells the truth about whole bodies: sizes are their lengths, Message-IDs their own. */
  ghost predicate FullListing(
      listing: seq<RemoteMessage>, body: RemoteMessage -> Bytes, parse: Bytes -> Option<string>)
  {
    && DistinctUids(listing)
    && (forall r :: r in listing ==> |body(r)| == r.size && parse(body(r)) == r.rfcId)
  }

  /** Nothing identifies such a message across two listings. */
  predicate Anonymous(r: RemoteMessage) {
    r.rfcId.None? && r.uidvalidity.None?
  }

  // ----- when storing succeeds -----

  /**
   Storing a batch of a listing succeeds exactly when no message of it is
   already bound under a different message id, that is, as different content
   or under a different role.
   */
  lemma {:induction false} StoreSucceedsIffUnclaimed(
      a: Archive, folder: Folder, listing: seq<RemoteMessage>, batch: seq<RemoteMessage>, body: RemoteMessage -> Bytes,
      parse: Bytes -> Option<string>)
    requires Valid(a, parse) && DistinctUids(listing)
    requires forall r :: r in batch ==> r in listing
    ensures StoreAll(a, folder, batch, body, parse).Ok? <==>
              forall r :: r in batch ==> Admits(a, StoreRequest(folder, r), body(r))
    decreases |batch|
  {
    if batch != [] && Admits(a, StoreRequest(folder, batch[0]), body(batch[0])) {
      var a' := Ingest(a, StoreRequest(folder, batch[0]), body(batch[0]), parse);
      assert batch[0] in batch;
      IngestKeepsValid(a, StoreRequest(folder, batch[0]), body(batch[0]), parse);
      StoreSucceedsIffUnclaimed(a', folder, listing, batch[1..], body, parse);
      forall r | r in batch
        ensures Admits(a, StoreRequest(folder, r), body(r)) <==> Admits(a', StoreRequest(folder, r), body(r))
      {
        StoreKeepsClaims(a, folder, batch[0], r, body, parse);
      }
      assert forall r :: r in batch <==> r == batch[0] || r in batch[1..];
    }
  }

  lemma {:induction false} StoreKeepsClaims(
      a: Archive, folder: Folder, r: RemoteMessage, r': RemoteMessage, body: RemoteMessage -> Bytes,
      parse: Bytes -> Option<string>)
    requires Valid(a, parse) && Admits(a, StoreRequest(folder, r), body(r))
    requires r.uid == r'.uid ==> r == r'
    ensures Admits(a, StoreRequest(folder, r'), body(r')) <==>
            Admits(Ingest(a, StoreRequest(folder, r), body(r), parse), StoreRequest(folder, r'), body(r'))
  {
    var a' := Ingest(a, StoreRequest(folder, r), body(r), parse);
    var id, id' := IdFor(folder, r, body(r)), IdFor(folder, r', body(r'));
    assert IdAgrees(a, id);
    forall other | other in a.bindings && other != id
      ensures other in a'.bindings && a'.bindings[other] == a.bindings[other]
    {
    }
    if r'.uidvalidity.Some? {
      var remote := StoreRequest(folder, r').remote.value;
      if BoundElsewhere(a, id', remote) {
        var other :| other in a.bindings && other != id' && a.bindings[other].remote == remote;
        assert other != id;
        assert BoundElsewhere(a', id', remote);
      }
      if BoundElsewhere(a', id', remote) {
        var other :| other in a'.bindings && other != id' && a'.bindings[other].remote == remote;
        assert BoundElsewhere(a, id', remote);
      }
    }
  }

  // ----- one sync of one folder -----

  /** `refresh_remote_flags`: other UIDVALIDITYs become stale, then each listed message's flags are copied. */
  function RefreshedFlags(a: Archive, folder: Folder, listing: seq<RemoteMessage>): Archive {
    if listing == [] then
      a
    else
      var before := RefreshedFlags(a, folder, listing[..|listing| - 1]);
      var r := listing[|listing| - 1];
      if r.uidvalidity.None? then before
      else UpdateRemoteFlags(before, PlaceOf(folder, r), r.readState, r.starred)
  }

  function FirstUidvalidity(listing: seq<RemoteMessage>): Option<nat> {
    if listing == [] then None
    else if listing[0].uidvalidity.Some? then listing[0].uidvalidity
    else FirstUidvalidity(listing[1..])
  }

  /** The first message listed with a UIDVALIDITY, which stands for the mailbox. */
  predicate FirstDated(listing: seq<RemoteMessage>, i: nat) {
    i < |listing| && listing[i].uidvalidity.Some? && forall k :: 0 <= k < i ==> listing[k].uidvalidity.None?
  }

  lemma {:induction false} FirstUidvalidityIs(listing: seq<RemoteMessage>)
    ensures forall i: nat :: FirstDated(listing, i) ==> FirstUidvalidity(listing) == listing[i].uidvalidity
    ensures FirstUidvalidity(listing).Some? ==> exists i: nat :: FirstDated(listing, i)
  {
    if listing != [] {
      FirstUidvalidityIs(listing[1..]);
      forall i: nat | FirstDated(listing, i) && i > 0
        ensures FirstUidvalidity(listing) == listing[i].uidvalidity
      {
        assert FirstDated(listing[1..], i - 1);
      }
      if listing[0].uidvalidity.Some? {
        assert FirstDated(listing, 0);
      } else if i: nat :| FirstDated(listing[1..], i) {
        assert FirstDated(listing, i + 1);
      }
    }
  }

  function Refreshed(a: Archive, folder: Folder, listing: seq<RemoteMessage>): Archive {
    match FirstUidvalidity(listing)
    case None => RefreshedFlags(a, folder, listing)
    case Some(current) =>
      RefreshedFlags(MarkStaleUidvalidity(a, folder.account, folder.mailbox, current), folder, listing)
  }

  /** The same rows and bindings up to flags and staleness. */
  ghost predicate SameButFlags(a: Archive, a': Archive) {
    && a'.files == a.files && a'.blobs == a.blobs
    && a'.messages.Keys == a.messages.Keys && a'.bindings.Keys == a.bindings.Keys
    && (forall id :: id in a.messages ==>
          a'.messages[id] == a.messages[id].(readState := a'.messages[id].readState,
            starred := a'.messages[id].starred))
    && (forall id :: id in a.bindings ==> a'.bindings[id].remote == a.bindings[id].remote)
  }

  lemma {:induction false} RefreshKeepsRows(a: Archive, folder: Folder, listing: seq<RemoteMessage>)
    ensures SameButFlags(a, RefreshedFlags(a, folder, listing))
  {
    if listing != [] {
      RefreshKeepsRows(a, folder, listing[..|listing| - 1]);
    }
  }

  lemma {:induction false} SameSizes(a: Archive, a': Archive, localRole: string, order: seq<MessageId>)
    requires SameButFlags(a, a')
    requires forall id :: id in order ==> id in a.messages
    ensures LocalSizes(a', localRole, order) == LocalSizes(a, localRole, order)
  {
    if order != [] {
      SameSizes(a, a', localRole, order[..|order| - 1]);
    }
  }

  lemma {:induction false} SameRfcIds(a: Archive, a': Archive, localRole: string)
    requires SameButFlags(a, a')
    ensures RfcIds(a', localRole) == RfcIds(a, localRole)
    ensures forall id :: ActiveIn(a', localRole, id) <==> ActiveIn(a, localRole, id)
  {
    forall id
      ensures ActiveIn(a', localRole, id) <==> ActiveIn(a, localRole, id)
    {
      if id in a.messages {
        assert a'.messages[id].content == a.messages[id].content;
      }
    }
  }

  lemma {:induction false} SameValid(a: Archive, a': Archive, parse: Bytes -> Option<string>)
    requires SameButFlags(a, a') && Valid(a, parse)
    ensures Valid(a', parse)
  {
    forall id
      ensures IdAgrees(a', id)
    {
      assert IdAgrees(a, id);
    }
  }

  lemma {:induction false} RefreshedRows(a: Archive, folder: Folder, listing: seq<RemoteMessage>)
    ensures SameButFlags(a, Refreshed(a, folder, listing))
  {
    RefreshKeepsRows(a, folder, listing);
    if FirstUidvalidity(listing).Some? {
      var current := FirstUidvalidity(listing).value;
      RefreshKeepsRows(MarkStaleUidvalidity(a, folder.account, folder.mailbox, current), folder, listing);
    }
  }

  /** The remote a listed message is stored under. */
  function PlaceOf(folder: Folder, r: RemoteMessage): Remote
    requires r.uidvalidity.Some?
  {
    Remote(folder.account, folder.mailbox, r.uidvalidity.value, r.uid)
  }

  predicate Names(a: Archive, folder: Folder, r: RemoteMessage, id: MessageId) {
    r.uidvalidity.Some? && id in a.bindings && a.bindings[id].remote == PlaceOf(folder, r)
  }

  lemma {:induction false} FlagsCopied(a: Archive, folder: Folder, listing: seq<RemoteMessage>, id: MessageId)
    requires id in a.messages && DistinctUids(listing)
    ensures
      var a' := RefreshedFlags(a, folder, listing);
      && a'.bindings == a.bindings && id in a'.messages
      && (forall r :: r in listing && Names(a, folder, r, id) && !a.messages[id].deleted ==>
            a'.messages[id] == a.messages[id].(readState := r.readState, starred := r.starred))
      && ((forall r :: r in listing ==> !Names(a, folder, r, id)) || a.messages[id].deleted ==>
            a'.messages[id] == a.messages[id])
  {
    if listing != [] {
      var front, last := listing[..|listing| - 1], listing[|listing| - 1];
      assert listing == front + [last];
      FlagsCopied(a, folder, front, id);
      if Names(a, folder, last, id) && last !in front {
        assert forall r :: r in front ==> !Names(a, folder, r, id);
      }
    }
  }

  /**
   What a refresh does to any row: an active one bound to a listed message gets
   that message's flags, every other keeps its own; and a binding of the
   mailbox becomes stale exactly when its UIDVALIDITY is not the listed one.
   */
  lemma {:induction false} RefreshIsExact(a: Archive, folder: Folder, listing: seq<RemoteMessage>, id: MessageId)
    requires id in a.messages && DistinctUids(listing)
    ensures
      var a' := Refreshed(a, folder, listing);
      && id in a'.messages
      && (forall r :: r in listing && Names(a, folder, r, id) && !a.messages[id].deleted ==>
            a'.messages[id] == a.messages[id].(readState := r.readState, starred := r.starred))
      && ((forall r :: r in listing ==> !Names(a, folder, r, id)) || a.messages[id].deleted ==>
            a'.messages[id] == a.messages[id])
    ensures
      id in a.bindings ==>
        var a', b := Refreshed(a, folder, listing), a.bindings[id];
        && id in a'.bindings && a'.bindings[id].remote == b.remote
        && (a'.bindings[id].stale <==>
              || b.stale
              || (&& b.remote.account == folder.account && b.remote.mailbox == folder.mailbox
                  && exists i: nat :: FirstDated(listing, i) && listing[i].uidvalidity != Some(b.remote.uidvalidity)))
  {
    FirstUidvalidityIs(listing);
    match FirstUidvalidity(listing) {
      case None =>
        FlagsCopied(a, folder, listing, id);
      case Some(current) =>
        var marked := MarkStaleUidvalidity(a, folder.account, folder.mailbox, current);
        FlagsCopied(marked, folder, listing, id);
        assert forall r :: Names(marked, folder, r, id) <==> Names(a, folder, r, id);
    }
  }

  /** Refreshing flags before comparing changes neither the tables' validity nor what is missing. */
  lemma {:induction false} RefreshKeepsMissing(
      a: Archive, folder: Folder, listing: seq<RemoteMessage>, order: seq<MessageId>, parse: Bytes -> Option<string>)
    requires Valid(a, parse) && Lists(order, a, folder.localRole)
    ensures Valid(Refreshed(a, folder, listing), parse) && Lists(order, Refreshed(a, folder, listing), folder.localRole)
    ensures Missing(Refreshed(a, folder, listing), listing, folder, order) == Missing(a, listing, folder, order)
  {
    var a' := Refreshed(a, folder, listing);
    RefreshedRows(a, folder, listing);
    SameValid(a, a', parse);
    SameSizes(a, a', folder.localRole, order);
    SameRfcIds(a, a', folder.localRole);
    SameRfcIds(a, a', "inbox");
    SameRfcIds(a, a', "sent");
    SameRfcIds(a, a', "drafts");
  }

  predicate AreIdsFor(ids: seq<MessageId>, folder: Folder, batch: seq<RemoteMessage>, body: RemoteMessage -> Bytes) {
    |ids| == |batch| && forall i :: 0 <= i < |batch| ==> ids[i] == IdFor(folder, batch[i], body(batch[i]))
  }

  lemma {:induction false} IdsGrow(
      ids: seq<MessageId>, folder: Folder, batch: seq<RemoteMessage>, i: nat, body: RemoteMessage -> Bytes)
    requires i < |batch| && AreIdsFor(ids, folder, batch[..i], body)
    ensures AreIdsFor(ids + [IdFor(folder, batch[i], body(batch[i]))], folder, batch[..i + 1], body)
  {
    assert batch[..i + 1] == batch[..i] + [batch[i]];
  }

  /** A failed ingest leaves the archive as it was, but for the blob file of the message. */
  predicate FailedIngest(a: Archive, a': Archive, data: Bytes) {
    a' == a || a' == WithBlob(a, data)
  }

  /** `store_message` for the next message of a batch. */
  method StoreNext(
      store: Store, folder: Folder, batch: seq<RemoteMessage>, i: nat, body: RemoteMessage -> Bytes,
      parse: Bytes -> Option<string>, uninterrupted: bool)
    returns (r: Result<MessageId>)
    requires Valid(store.archive, parse) && i < |batch|
    modifies store
    ensures Valid(store.archive, parse)
    ensures r.Ok? ==> r.value == IdFor(folder, batch[i], body(batch[i]))
    ensures r.Ok? ==> StoreAll(old(store.archive), folder, [batch[i]], body, parse) == Ok(store.archive)
    ensures r.Err? ==> FailedIngest(old(store.archive), store.archive, body(batch[i]))
    ensures uninterrupted ==> (r.Ok? <==> StoreAll(old(store.archive), folder, [batch[i]], body, parse).Ok?)
  {
    r := store.IngestMessage(StoreRequest(folder, batch[i]), body(batch[i]), parse, uninterrupted);
  }

  lemma {:induction false} StoreOneMore(
      a: Archive, folder: Folder, batch: seq<RemoteMessage>, r: RemoteMessage, body: RemoteMessage -> Bytes,
      parse: Bytes -> Option<string>)
    requires StoreAll(a, folder, batch, body, parse).Ok?
    ensures StoreAll(a, folder, batch + [r], body, parse)
         == StoreAll(StoreAll(a, folder, batch, body, parse).value, folder, [r], body, parse)
    decreases |batch|
  {
    if batch == [] {
      assert batch + [r] == [r];
    } else {
      assert (batch + [r])[0] == batch[0] && (batch + [r])[1..] == batch[1..] + [r];
      var a1 := Ingest(a, StoreRequest(folder, batch[0]), body(batch[0]), parse);
      StoreOneMore(a1, folder, batch[1..], r, body, parse);
    }
  }

  lemma {:induction false} StoreUpTo(
      a: Archive, folder: Folder, batch: seq<RemoteMessage>, i: nat, body: RemoteMessage -> Bytes,
      parse: Bytes -> Option<string>)
    requires i < |batch| && StoreAll(a, folder, batch[..i], body, parse).Ok?
    ensures StoreAll(a, folder, batch[..i + 1], body, parse)
         == StoreAll(StoreAll(a, folder, batch[..i], body, parse).value, folder, [batch[i]], body, parse)
  {
    StoreOneMore(a, folder, batch[..i], batch[i], body, parse);
    assert batch[..i + 1] == batch[..i] + [batch[i]];
  }

  /** A message refused in its turn refuses the batch. */
  lemma {:induction false} RefusedAt(
      a: Archive, folder: Folder, batch: seq<RemoteMessage>, i: nat, body: RemoteMessage -> Bytes,
      parse: Bytes -> Option<string>)
    requires i < |batch| && StoreAll(a, folder, batch[..i], body, parse).Ok?
    requires StoreAll(StoreAll(a, folder, batch[..i], body, parse).value, folder, [batch[i]], body, parse).Err?
    ensures StoreAll(a, folder, batch, body, parse).Err?
    decreases |batch|
  {
    if i > 0 {
      var a1 := Ingest(a, StoreRequest(folder, batch[0]), body(batch[0]), parse);
      assert batch[..i][1..] == batch[1..][..i - 1];
      RefusedAt(a1, folder, batch[1..], i - 1, body, parse);
    }
  }

  /** What a failure leaves: the messages before some k stored, and perhaps the blob file of the k-th. */
  predicate FailedAt(
      a: Archive, a': Archive, folder: Folder, batch: seq<RemoteMessage>, k: nat, body: RemoteMessage -> Bytes,
      parse: Bytes -> Option<string>)
    requires k < |batch|
  {
    var before := StoreAll(a, folder, batch[..k], body, parse);
    before.Ok? && FailedIngest(before.value, a', body(batch[k]))
  }

  ghost predicate Interrupted(
      a: Archive, a': Archive, folder: Folder, batch: seq<RemoteMessage>, body: RemoteMessage -> Bytes,
      parse: Bytes -> Option<string>)
  {
    exists k :: 0 <= k < |batch| && FailedAt(a, a', folder, batch, k, body, parse)
  }

  /** Downloads and stores a batch in turn; a failure leaves what was stored before it. */
  method StoreBatch(
      store: Store, folder: Folder, batch: seq<RemoteMessage>, body: RemoteMessage -> Bytes,
      parse: Bytes -> Option<string>, uninterrupted: bool)
    returns (stored: Result<seq<MessageId>>)
    requires Valid(store.archive, parse)
    modifies store
    ensures Valid(store.archive, parse)
    ensures stored.Ok? ==> StoreAll(old(store.archive), folder, batch, body, parse) == Ok(store.archive)
    ensures stored.Ok? ==> AreIdsFor(stored.value, folder, batch, body)
    ensures stored.Err? ==> Interrupted(old(store.archive), store.archive, folder, batch, body, parse)
    ensures uninterrupted ==> (stored.Ok? <==> StoreAll(old(store.archive), folder, batch, body, parse).Ok?)
  {
    var ids: seq<MessageId> := [];
    ghost var before := store.archive;
    for i := 0 to |batch|
      invariant Valid(store.archive, parse)
      invariant AreIdsFor(ids, folder, batch[..i], body)
      invariant StoreAll(before, folder, batch[..i], body, parse) == Ok(store.archive)
    {
      var r := StoreNext(store, folder, batch, i, body, parse, uninterrupted);
      if r.Err? {
        if uninterrupted {
          RefusedAt(before, folder, batch, i, body, parse);
        }
        assert FailedAt(before, store.archive, folder, batch, i, body, parse);
        return Err;
      }
      IdsGrow(ids, folder, batch, i, body);
      StoreUpTo(before, folder, batch, i, body, parse);
      ids := ids + [r.value];
    }
    assert batch[..|batch|] == batch;
    return Ok(ids);
  }

  /**
   `sync_folder`: refresh flags, compare, truncate, store. `order` is the
   order in which the archive lists the role.
   */
  method SyncFolder(
      store: Store, folder: Folder, listing: seq<RemoteMessage>, limit: Option<nat>, order: seq<MessageId>,
      body: RemoteMessage -> Bytes, parse: Bytes -> Option<string>, uninterrupted: bool)
    returns (stored: Result<seq<MessageId>>)
    requires Valid(store.archive, parse) && Lists(order, store.archive, folder.localRole)
    modifies store
    ensures Valid(store.archive, parse)
    ensures
      var refreshed := Refreshed(old(store.archive), folder, listing);
      var batch := Truncated(Missing(old(store.archive), listing, folder, order), limit);
      match stored
      case Ok(ids) =>
        StoreAll(refreshed, folder, batch, body, parse) == Ok(store.archive) && AreIdsFor(ids, folder, batch, body)
      case Err =>
        Interrupted(refreshed, store.archive, folder, batch, body, parse)
    ensures uninterrupted && DistinctUids(listing) ==>
              var missing := Missing(old(store.archive), listing, folder, order);
              stored.Ok? <==> forall r :: r in Truncated(missing, limit) ==>
                Admits(Refreshed(old(store.archive), folder, listing), StoreRequest(folder, r), body(r))
    ensures stored.Ok? ==>
              var missing := Missing(old(store.archive), listing, folder, order);
              && |stored.value| == (if limit.Some? && limit.value <= |missing| then limit.value else |missing|)
              && AreIdsFor(stored.value, folder, missing[..|stored.value|], body)
              && (DistinctUids(listing) ==>
                    forall r :: r in missing[..|stored.value|] ==> Holds(store.archive, folder, r, body(r)))
  {
    ghost var refreshed := Refreshed(store.archive, folder, listing);
    RefreshKeepsMissing(store.archive, folder, listing, order, parse);
    store.archive := Refreshed(store.archive, folder, listing);
    var missing := FindMissing(store.archive, listing, folder, order);
    var batch := Truncated(missing, limit);
    stored := StoreBatch(store, folder, batch, body, parse, uninterrupted);
    TruncatedIsPrefix(missing, limit);
    assert batch == missing[..|batch|];
    if DistinctUids(listing) {
      StoreSucceedsIffUnclaimed(refreshed, folder, listing, batch, body, parse);
    }
    if stored.Ok? && DistinctUids(listing) {
      forall r | r in batch
        ensures Holds(store.archive, folder, r, body(r))
      {
        StoreAllHolds(refreshed, folder, listing, batch, body, parse, r);
      }
    }
  }
}
