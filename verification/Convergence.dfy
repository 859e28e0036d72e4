/**
 When repeated syncs of one folder come to an end.

 The comparison files a bound row under its role, UIDVALIDITY and UID, and not
 under its account and mailbox. A row of another mailbox can therefore stand in
 for a listed message, or hide the row that was stored for it.
 */
module Convergence {
  import opened Basics
  import opened Storage
  import opened Sync
  import Decimal

  // ----- what a comparison sees of the rows -----

  predicate BoundTo(a: Archive, id: MessageId, r: RemoteMessage) {
    && id in a.bindings
    && r.uidvalidity == Some(a.bindings[id].remote.uidvalidity) && r.uid == a.bindings[id].remote.uid
  }

  /** An active row of the role filed under the listed message's UIDVALIDITY and UID. */
  predicate Rowed(a: Archive, folder: Folder, r: RemoteMessage, id: MessageId) {
    ActiveIn(a, folder.localRole, id) && BoundTo(a, id, r)
  }

  /** Such a row that is bound to a message of another account or mailbox. */
  predicate Foreign(a: Archive, folder: Folder, r: RemoteMessage, id: MessageId) {
    Rowed(a, folder, r, id) && !Names(a, folder, r, id)
  }

  predicate Indexed(a: Archive, folder: Folder, r: RemoteMessage) {
    r.rfcId.Some? && r.rfcId.value in RfcIndex(a, folder.localRole, folder.scope)
  }

  predicate HasSize(a: Archive, id: MessageId, size: nat)
    requires id in a.messages
  {
    FileSize(a, a.messages[id].content) == size
  }

  /**
   An active message row of the role that is bound under the listed message's
   UIDVALIDITY and UID, and whose blob file, if there is one, has the size.
   */
  predicate FiledWithSize(a: Archive, localRole: string, r: RemoteMessage, id: MessageId) {
    && id in a.messages && a.messages[id].localRole == localRole && !a.messages[id].deleted
    && id in a.bindings
    && r.uidvalidity == Some(a.bindings[id].remote.uidvalidity) && r.uid == a.bindings[id].remote.uid
    && (if a.messages[id].content in a.files then |a.files[a.messages[id].content]| == r.size else r.size == 0)
  }

  predicate CoveredBy(a: Archive, folder: Folder, order: seq<MessageId>, r: RemoteMessage)
    requires forall id :: id in order ==> id in a.messages
  {
    Covered(LocalSizes(a, folder.localRole, order), RfcIndex(a, folder.localRole, folder.scope), folder.localRole, r)
  }

  lemma {:induction false} SizesHold(a: Archive, localRole: string, order: seq<MessageId>, key: LocalKey)
    requires forall id :: id in order ==> id in a.messages
    ensures key in LocalSizes(a, localRole, order) <==> exists id :: id in order && KeyOf(a, localRole, id) == key
    ensures key in LocalSizes(a, localRole, order) ==>
              exists id :: id in order && KeyOf(a, localRole, id) == key &&
                           LocalSizes(a, localRole, order)[key] == FileSize(a, a.messages[id].content)
  {
    if order != [] {
      var front, last := order[..|order| - 1], order[|order| - 1];
      SizesHold(a, localRole, front, key);
      assert order == front + [last];
      if KeyOf(a, localRole, last) == key {
        assert last in order;
      }
    }
  }

  lemma {:induction false} KeyIsRow(a: Archive, folder: Folder, r: RemoteMessage, id: MessageId)
    requires r.uidvalidity.Some? && ActiveIn(a, folder.localRole, id)
    ensures Rowed(a, folder, r, id) <==>
              KeyOf(a, folder.localRole, id) ==
              ByRemote(Decimal.RemoteSizeKey(folder.localRole, r.uidvalidity.value, r.uid))
  {
    if id in a.bindings {
      var b := a.bindings[id].remote;
      var role, uidvalidity := folder.localRole, r.uidvalidity.value;
      if KeyOf(a, role, id) == ByRemote(Decimal.RemoteSizeKey(role, uidvalidity, r.uid)) {
        Decimal.RemoteSizeKeyInjective(role, b.uidvalidity, b.uid, role, uidvalidity, r.uid);
      }
    }
  }

  /** A message is skipped on its Message-ID, or on a row of its UIDVALIDITY and UID with a blob of the listed size. */
  lemma {:induction false} SkippedOnlyOnARowOfItsUid(
      a: Archive, folder: Folder, order: seq<MessageId>, r: RemoteMessage)
    requires Lists(order, a, folder.localRole)
    requires CoveredBy(a, folder, order, r) && !Indexed(a, folder, r)
    ensures exists id :: Rowed(a, folder, r, id) && HasSize(a, id, r.size) && FiledWithSize(a, folder.localRole, r, id)
  {
    var key := ByRemote(Decimal.RemoteSizeKey(folder.localRole, r.uidvalidity.value, r.uid));
    SizesHold(a, folder.localRole, order, key);
    var id :| id in order && KeyOf(a, folder.localRole, id) == key &&
      LocalSizes(a, folder.localRole, order)[key] == FileSize(a, a.messages[id].content);
    KeyIsRow(a, folder, r, id);
  }

  /** Of the rows filed under one UIDVALIDITY and UID, the one listed last decides. */
  lemma {:induction false} LastRowDecides(
      a: Archive, folder: Folder, order: seq<MessageId>, r: RemoteMessage, id: MessageId)
    requires Lists(order, a, folder.localRole) && order != [] && order[|order| - 1] == id
    requires Rowed(a, folder, r, id)
    ensures CoveredBy(a, folder, order, r) <==> Indexed(a, folder, r) || HasSize(a, id, r.size)
  {
    assert id in order;
    KeyIsRow(a, folder, r, id);
  }

  /** Rows that all have the listed size cover a message in every order. */
  lemma {:induction false} SizedRowsCover(
      a: Archive, folder: Folder, order: seq<MessageId>, r: RemoteMessage, id: MessageId)
    requires Lists(order, a, folder.localRole) && Rowed(a, folder, r, id)
    requires forall other :: Rowed(a, folder, r, other) ==> HasSize(a, other, r.size)
    ensures CoveredBy(a, folder, order, r)
  {
    var key := ByRemote(Decimal.RemoteSizeKey(folder.localRole, r.uidvalidity.value, r.uid));
    SizesHold(a, folder.localRole, order, key);
    KeyIsRow(a, folder, r, id);
    var other :| other in order && KeyOf(a, folder.localRole, other) == key &&
      LocalSizes(a, folder.localRole, order)[key] == FileSize(a, a.messages[other].content);
    KeyIsRow(a, folder, r, other);
  }

  lemma {:induction false} ListingOf(ids: set<MessageId>)
    ensures exists order: seq<MessageId> ::
              (forall id :: id in order <==> id in ids) && forall i, j :: 0 <= i < j < |order| ==> order[i] != order[j]
    decreases |ids|
  {
    if ids == {} {
      var order: seq<MessageId> := [];
      assert forall id :: id in order <==> id in ids;
    } else {
      var id :| id in ids;
      ListingOf(ids - {id});
      var front: seq<MessageId> :| (forall x :: x in front <==> x in ids - {id}) &&
        forall i, j :: 0 <= i < j < |front| ==> front[i] != front[j];
      var order := front + [id];
      assert forall x :: x in order <==> x in ids;
    }
  }

  /** Dates can put any active row of a role last in its listing. */
  lemma {:induction false} AnyRowMayBeLast(a: Archive, localRole: string, id: MessageId)
    requires ActiveIn(a, localRole, id)
    ensures exists order :: Lists(order, a, localRole) && order != [] && order[|order| - 1] == id
  {
    var ids := set x | x in a.messages && ActiveIn(a, localRole, x);
    ListingOf(ids - {id});
    var front: seq<MessageId> :| (forall x :: x in front <==> x in ids - {id}) &&
      forall i, j :: 0 <= i < j < |front| ==> front[i] != front[j];
    var order := front + [id];
    assert forall x :: x in order <==> ActiveIn(a, localRole, x);
    assert Lists(order, a, localRole) && order[|order| - 1] == id;
  }

  lemma {:induction false} SomeListing(a: Archive, localRole: string)
    ensures exists order :: Lists(order, a, localRole)
  {
    var ids := set x | x in a.messages && ActiveIn(a, localRole, x);
    ListingOf(ids);
    var order: seq<MessageId> :| (forall x :: x in order <==> x in ids) &&
      forall i, j :: 0 <= i < j < |order| ==> order[i] != order[j];
    assert Lists(order, a, localRole);
  }

  /** Covered whatever the dates: by Message-ID, or by rows that all have the listed size. */
  lemma {:induction false} CoveredInEveryOrderIff(a: Archive, folder: Folder, r: RemoteMessage)
    ensures (forall order :: Lists(order, a, folder.localRole) ==> CoveredBy(a, folder, order, r)) <==>
              Indexed(a, folder, r) ||
              ((exists id :: Rowed(a, folder, r, id)) &&
               forall id :: Rowed(a, folder, r, id) ==> HasSize(a, id, r.size))
  {
    if !Indexed(a, folder, r) {
      if forall order :: Lists(order, a, folder.localRole) ==> CoveredBy(a, folder, order, r) {
        SomeListing(a, folder.localRole);
        var order :| Lists(order, a, folder.localRole);
        SkippedOnlyOnARowOfItsUid(a, folder, order, r);
        forall id | Rowed(a, folder, r, id)
          ensures HasSize(a, id, r.size)
        {
          AnyRowMayBeLast(a, folder.localRole, id);
          var last :| Lists(last, a, folder.localRole) && last != [] && last[|last| - 1] == id;
          LastRowDecides(a, folder, last, r, id);
        }
      }
      if id :| Rowed(a, folder, r, id) {
        if forall id :: Rowed(a, folder, r, id) ==> HasSize(a, id, r.size) {
          forall order | Lists(order, a, folder.localRole)
            ensures CoveredBy(a, folder, order, r)
          {
            SizedRowsCover(a, folder, order, r, id);
          }
        }
      }
    }
  }

  /** Covered under some dates: by Message-ID, or by one row of the listed size. */
  lemma {:induction false} CoveredInSomeOrderIff(a: Archive, folder: Folder, r: RemoteMessage)
    ensures (exists order :: Lists(order, a, folder.localRole) && CoveredBy(a, folder, order, r)) <==>
              Indexed(a, folder, r) || exists id :: Rowed(a, folder, r, id) && HasSize(a, id, r.size)
    ensures (exists order :: Lists(order, a, folder.localRole) && CoveredBy(a, folder, order, r)) <==>
              Indexed(a, folder, r) || exists id :: FiledWithSize(a, folder.localRole, r, id)
  {
    assert forall id :: FiledWithSize(a, folder.localRole, r, id) <==>
      Rowed(a, folder, r, id) && HasSize(a, id, r.size);
    if order :| Lists(order, a, folder.localRole) && CoveredBy(a, folder, order, r) {
      if !Indexed(a, folder, r) {
        SkippedOnlyOnARowOfItsUid(a, folder, order, r);
      }
    }
    if Indexed(a, folder, r) {
      SomeListing(a, folder.localRole);
      var order :| Lists(order, a, folder.localRole);
      assert CoveredBy(a, folder, order, r);
    }
    if id :| Rowed(a, folder, r, id) && HasSize(a, id, r.size) {
      AnyRowMayBeLast(a, folder.localRole, id);
      var last :| Lists(last, a, folder.localRole) && last != [] && last[|last| - 1] == id;
      LastRowDecides(a, folder, last, r, id);
    }
  }

  lemma {:induction false} UncoveredMeans(
      remotes: seq<RemoteMessage>, sizes: map<LocalKey, nat>, index: set<string>, localRole: string, r: RemoteMessage)
    ensures r in Uncovered(remotes, sizes, index, localRole) <==> r in remotes && !Covered(sizes, index, localRole, r)
  {
    if remotes != [] {
      UncoveredMeans(remotes[..|remotes| - 1], sizes, index, localRole, r);
      assert remotes == remotes[..|remotes| - 1] + [remotes[|remotes| - 1]];
    }
  }

  /**
   A message the archive does not hold can be skipped all the same, under some
   dates, exactly when a row of another account or mailbox has its UIDVALIDITY,
   UID and size.
   */
  lemma {:induction false} SkippedUnstoredIff(a: Archive, folder: Folder, listing: seq<RemoteMessage>, r: RemoteMessage)
    requires r in listing && !Indexed(a, folder, r)
    requires forall id :: Rowed(a, folder, r, id) && HasSize(a, id, r.size) ==> Foreign(a, folder, r, id)
    ensures (exists order :: Lists(order, a, folder.localRole) && r !in Missing(a, listing, folder, order)) <==>
              exists id :: Foreign(a, folder, r, id) && HasSize(a, id, r.size)
  {
    forall order | Lists(order, a, folder.localRole)
      ensures r in Missing(a, listing, folder, order) <==> !CoveredBy(a, folder, order, r)
    {
      MissingMeans(a, folder, listing, order, r);
    }
    CoveredInSomeOrderIff(a, folder, r);
  }

  lemma {:induction false} MissingMeans(
      a: Archive, folder: Folder, listing: seq<RemoteMessage>, order: seq<MessageId>, r: RemoteMessage)
    requires Lists(order, a, folder.localRole)
    ensures r in Missing(a, listing, folder, order) <==> r in listing && !CoveredBy(a, folder, order, r)
  {
    var sizes, index := LocalSizes(a, folder.localRole, order), RfcIndex(a, folder.localRole, folder.scope);
    UncoveredMeans(listing, sizes, index, folder.localRole, r);
  }

  // ----- what a store does to the index, the rows and the files -----

  predicate InScope(folder: Folder, localRole: string) {
    localRole == folder.localRole || (folder.scope.AllFolders? && localRole in {"inbox", "sent", "drafts"})
  }

  predicate HasRfcId(a: Archive, localRole: string, row: MessageId, x: string) {
    && ActiveIn(a, localRole, row) && a.messages[row].content in a.blobs
    && a.blobs[a.messages[row].content] == Some(x)
  }

  lemma {:induction false} RfcIndexMeans(a: Archive, folder: Folder, x: string)
    ensures x in RfcIndex(a, folder.localRole, folder.scope) <==>
              exists localRole, row :: InScope(folder, localRole) && HasRfcId(a, localRole, row, x)
  {
    forall localRole
      ensures x in RfcIds(a, localRole) <==> exists row :: HasRfcId(a, localRole, row, x)
    {
      if x in RfcIds(a, localRole) {
        var row :| row in a.messages && ActiveIn(a, localRole, row) && a.messages[row].content in a.blobs
          && a.blobs[a.messages[row].content].Some? && a.blobs[a.messages[row].content].value == x;
        assert HasRfcId(a, localRole, row, x);
      }
    }
    if x in RfcIndex(a, folder.localRole, folder.scope) {
      var localRole :| InScope(folder, localRole) && x in RfcIds(a, localRole);
    }
  }

  /** A row other than the stored one keeps its Message-ID, and gets none. */
  lemma {:induction false} OtherRowsKeepRfcIds(
      a: Archive, request: Request, data: Bytes, parse: Bytes -> Option<string>, localRole: string, row: MessageId,
      x: string)
    requires Valid(a, parse) && Admits(a, request, data) && row != IngestMessageId(request, Digest(data))
    ensures HasRfcId(Ingest(a, request, data, parse), localRole, row, x) <==> HasRfcId(a, localRole, row, x)
  {
    if row in a.messages {
      assert a.messages[row].content in a.blobs;
    }
  }

  /** The stored row has the Message-ID of its bytes, before the store if it was there, and after. */
  lemma {:induction false} StoredRowHasRfcId(
      a: Archive, folder: Folder, r: RemoteMessage, data: Bytes, parse: Bytes -> Option<string>, localRole: string,
      x: string)
    requires Valid(a, parse) && Admits(a, StoreRequest(folder, r), data)
    ensures HasRfcId(a, localRole, IdFor(folder, r, data), x) ==> parse(data) == Some(x)
    ensures HasRfcId(Ingest(a, StoreRequest(folder, r), data, parse), localRole, IdFor(folder, r, data), x) <==>
              localRole == folder.localRole && parse(data) == Some(x)
  {
    assert IdAgrees(a, IdFor(folder, r, data));
  }

  /** Storing a message adds its own Message-ID to the index and takes none away. */
  lemma {:induction false} StoreExtendsRfcIndex(
      a: Archive, folder: Folder, r: RemoteMessage, data: Bytes, parse: Bytes -> Option<string>, x: string)
    requires Valid(a, parse) && Admits(a, StoreRequest(folder, r), data)
    ensures x in RfcIndex(Ingest(a, StoreRequest(folder, r), data, parse), folder.localRole, folder.scope) <==>
              x in RfcIndex(a, folder.localRole, folder.scope) || parse(data) == Some(x)
  {
    var a', id := Ingest(a, StoreRequest(folder, r), data, parse), IdFor(folder, r, data);
    RfcIndexMeans(a, folder, x);
    RfcIndexMeans(a', folder, x);
    forall localRole
      ensures HasRfcId(a, localRole, id, x) ==> parse(data) == Some(x)
      ensures HasRfcId(a', localRole, id, x) <==> localRole == folder.localRole && parse(data) == Some(x)
    {
      StoredRowHasRfcId(a, folder, r, data, parse, localRole, x);
    }
    forall localRole, row | row != id
      ensures HasRfcId(a', localRole, row, x) <==> HasRfcId(a, localRole, row, x)
    {
      OtherRowsKeepRfcIds(a, StoreRequest(folder, r), data, parse, localRole, row, x);
    }
    if parse(data) == Some(x) {
      assert InScope(folder, folder.localRole) && HasRfcId(a', folder.localRole, id, x);
    }
  }

  /** The row a listed message is stored as. */
  predicate StoredAs(
      folder: Folder, batch: seq<RemoteMessage>, r: RemoteMessage, body: RemoteMessage -> Bytes, id: MessageId)
  {
    r in batch && r.uidvalidity.Some? && id == IdFor(folder, r, body(r))
  }

  /** A row other than the stored one is filed as before. */
  lemma {:induction false} OtherRowsStay(
      a: Archive, folder: Folder, r: RemoteMessage, r': RemoteMessage, id: MessageId, data: Bytes,
      parse: Bytes -> Option<string>)
    requires Admits(a, StoreRequest(folder, r), data) && id != IdFor(folder, r, data)
    ensures
      var a' := Ingest(a, StoreRequest(folder, r), data, parse);
      && (Rowed(a', folder, r', id) <==> Rowed(a, folder, r', id))
      && (Rowed(a, folder, r', id) ==> a'.messages[id].content == a.messages[id].content)
  {
  }

  /** The stored row is filed under its own message, as it was if it was there. */
  lemma {:induction false} StoredRowIsFiled(
      a: Archive, folder: Folder, r: RemoteMessage, r': RemoteMessage, data: Bytes, parse: Bytes -> Option<string>)
    requires Valid(a, parse) && Admits(a, StoreRequest(folder, r), data)
    requires r.uid == r'.uid ==> r == r'
    ensures
      var a', id := Ingest(a, StoreRequest(folder, r), data, parse), IdFor(folder, r, data);
      && (Rowed(a', folder, r', id) <==> r' == r && r.uidvalidity.Some?)
      && a'.messages[id].content == Digest(data)
      && (Rowed(a, folder, r', id) ==> r' == r && r.uidvalidity.Some? && a.messages[id].content == Digest(data))
  {
    assert IdAgrees(a, IdFor(folder, r, data));
  }

  /** Storing one listed message files no row under another's UID, and takes none away. */
  lemma {:induction false} StoreExtendsRows(
      a: Archive, folder: Folder, listing: seq<RemoteMessage>, r: RemoteMessage, r': RemoteMessage, id: MessageId,
      body: RemoteMessage -> Bytes, parse: Bytes -> Option<string>)
    requires Valid(a, parse) && DistinctUids(listing) && r in listing && r' in listing
    requires Admits(a, StoreRequest(folder, r), body(r))
    ensures
      var a' := Ingest(a, StoreRequest(folder, r), body(r), parse);
      && (Rowed(a', folder, r', id) <==> Rowed(a, folder, r', id) || StoredAs(folder, [r], r', body, id))
      && (Rowed(a, folder, r', id) ==> a'.messages[id].content == a.messages[id].content)
      && (StoredAs(folder, [r], r', body, id) ==> a'.messages[id].content == Digest(body(r)))
  {
    if id == IdFor(folder, r, body(r)) {
      StoredRowIsFiled(a, folder, r, r', body(r), parse);
    } else {
      OtherRowsStay(a, folder, r, r', id, body(r), parse);
    }
  }

  /** The blobs a batch writes, or repairs, have the length of their content; others keep their size. */
  function SizeAfter(a: Archive, batch: seq<RemoteMessage>, body: RemoteMessage -> Bytes, content: Digest): nat {
    if exists b :: b in batch && Digest(body(b)) == content then |content.data| else FileSize(a, content)
  }

  predicate IndexedAfter(a: Archive, folder: Folder, batch: seq<RemoteMessage>, r: RemoteMessage) {
    Indexed(a, folder, r) || (r.rfcId.Some? && exists b :: b in batch && b.rfcId == r.rfcId)
  }

  /** Everything a comparison reads after a batch is known before it: index, rows, contents and sizes. */
  lemma {:induction false} StoreAllExtends(
      a: Archive, folder: Folder, listing: seq<RemoteMessage>, batch: seq<RemoteMessage>, r: RemoteMessage,
      id: MessageId, body: RemoteMessage -> Bytes, parse: Bytes -> Option<string>)
    requires Valid(a, parse) && FullListing(listing, body, parse)
    requires (forall x :: x in batch ==> x in listing) && r in listing
    requires StoreAll(a, folder, batch, body, parse).Ok?
    ensures
      var a' := StoreAll(a, folder, batch, body, parse).value;
      && Valid(a', parse)
      && (Indexed(a', folder, r) <==> IndexedAfter(a, folder, batch, r))
      && (Rowed(a', folder, r, id) <==> Rowed(a, folder, r, id) || StoredAs(folder, batch, r, body, id))
      && (Rowed(a, folder, r, id) ==> a'.messages[id].content == a.messages[id].content)
      && (StoredAs(folder, batch, r, body, id) ==> a'.messages[id].content == Digest(body(r)))
    decreases |batch|
  {
    if batch != [] {
      var first, rest := batch[0], batch[1..];
      var a1 := Ingest(a, StoreRequest(folder, first), body(first), parse);
      assert first in batch && forall x :: x in batch <==> x == first || x in rest;
      IngestKeepsValid(a, StoreRequest(folder, first), body(first), parse);
      if r.rfcId.Some? {
        StoreExtendsRfcIndex(a, folder, first, body(first), parse, r.rfcId.value);
      }
      StoreExtendsRows(a, folder, listing, first, r, id, body, parse);
      StoreAllExtends(a1, folder, listing, rest, r, id, body, parse);
    }
  }

  lemma {:induction false} StoreAllSizes(
      a: Archive, folder: Folder, batch: seq<RemoteMessage>, body: RemoteMessage -> Bytes,
      parse: Bytes -> Option<string>, content: Digest)
    requires StoreAll(a, folder, batch, body, parse).Ok?
    ensures FileSize(StoreAll(a, folder, batch, body, parse).value, content) == SizeAfter(a, batch, body, content)
    decreases |batch|
  {
    if batch != [] {
      var first, rest := batch[0], batch[1..];
      assert forall x :: x in batch <==> x == first || x in rest;
      StoreAllSizes(Ingest(a, StoreRequest(folder, first), body(first), parse), folder, rest, body, parse, content);
    }
  }

  // ----- one round -----

  /**
   A row that will speak for a listed message with the wrong size: it is filed
   under the same UIDVALIDITY and UID, and the Message-ID does not settle it.
   */
  predicate Clash(
      a: Archive, folder: Folder, batch: seq<RemoteMessage>, body: RemoteMessage -> Bytes, r: RemoteMessage,
      id: MessageId)
  {
    && Rowed(a, folder, r, id) && !IndexedAfter(a, folder, batch, r)
    && SizeAfter(a, batch, body, a.messages[id].content) != r.size
  }

  /** What is known of a row before a batch says what a comparison makes of it afterwards. */
  predicate Foretold(
      a: Archive, a': Archive, folder: Folder, batch: seq<RemoteMessage>, body: RemoteMessage -> Bytes,
      r: RemoteMessage, id: MessageId)
  {
    && (Indexed(a', folder, r) <==> IndexedAfter(a, folder, batch, r))
    && (Rowed(a', folder, r, id) <==> Rowed(a, folder, r, id) || StoredAs(folder, batch, r, body, id))
    && (!Indexed(a', folder, r) && Rowed(a', folder, r, id) ==>
          (HasSize(a', id, r.size) <==> !Clash(a, folder, batch, body, r, id)))
  }

  lemma {:induction false} RowAfter(
      a: Archive, folder: Folder, listing: seq<RemoteMessage>, batch: seq<RemoteMessage>, body: RemoteMessage -> Bytes,
      parse: Bytes -> Option<string>, r: RemoteMessage, id: MessageId)
    requires Valid(a, parse) && FullListing(listing, body, parse)
    requires (forall x :: x in batch ==> x in listing) && r in listing
    requires StoreAll(a, folder, batch, body, parse).Ok?
    ensures Foretold(a, StoreAll(a, folder, batch, body, parse).value, folder, batch, body, r, id)
  {
    var a' := StoreAll(a, folder, batch, body, parse).value;
    StoreAllExtends(a, folder, listing, batch, r, id, body, parse);
    if Rowed(a', folder, r, id) {
      StoreAllSizes(a, folder, batch, body, parse, a'.messages[id].content);
    }
  }

  lemma {:induction false} SomeRow(
      a: Archive, folder: Folder, batch: seq<RemoteMessage>, order: seq<MessageId>, body: RemoteMessage -> Bytes,
      r: RemoteMessage)
    requires Lists(order, a, folder.localRole) && !IndexedAfter(a, folder, batch, r)
    requires CoveredBy(a, folder, order, r) || (r in batch && !Anonymous(r))
    ensures exists id :: Rowed(a, folder, r, id) || StoredAs(folder, batch, r, body, id)
  {
    if CoveredBy(a, folder, order, r) {
      SkippedOnlyOnARowOfItsUid(a, folder, order, r);
    } else {
      assert StoredAs(folder, batch, r, body, IdFor(folder, r, body(r)));
    }
  }

  /**
   A message covered before a batch, or stored by it, is covered from then on if
   and only if no row clashes with it.
   */
  lemma {:induction false} CoveredAfterIff(
      a: Archive, folder: Folder, listing: seq<RemoteMessage>, batch: seq<RemoteMessage>, order: seq<MessageId>,
      body: RemoteMessage -> Bytes, parse: Bytes -> Option<string>, r: RemoteMessage)
    requires Valid(a, parse) && FullListing(listing, body, parse) && Lists(order, a, folder.localRole)
    requires (forall x :: x in batch ==> x in listing) && r in listing
    requires StoreAll(a, folder, batch, body, parse).Ok?
    requires CoveredBy(a, folder, order, r) || (r in batch && !Anonymous(r))
    ensures
      var a' := StoreAll(a, folder, batch, body, parse).value;
      (forall order' :: Lists(order', a', folder.localRole) ==> CoveredBy(a', folder, order', r)) <==>
      forall id :: !Clash(a, folder, batch, body, r, id)
  {
    var a' := StoreAll(a, folder, batch, body, parse).value;
    forall id
      ensures Foretold(a, a', folder, batch, body, r, id)
    {
      RowAfter(a, folder, listing, batch, body, parse, r, id);
    }
    ForetoldDecides(a, a', folder, batch, order, body, r);
  }

  lemma {:induction false} ForetoldDecides(
      a: Archive, a': Archive, folder: Folder, batch: seq<RemoteMessage>, order: seq<MessageId>,
      body: RemoteMessage -> Bytes, r: RemoteMessage)
    requires Lists(order, a, folder.localRole)
    requires forall id :: Foretold(a, a', folder, batch, body, r, id)
    requires CoveredBy(a, folder, order, r) || (r in batch && !Anonymous(r))
    ensures (forall order' :: Lists(order', a', folder.localRole) ==> CoveredBy(a', folder, order', r)) <==>
              forall id :: !Clash(a, folder, batch, body, r, id)
  {
    CoveredInEveryOrderIff(a', folder, r);
    var any: MessageId :| true;
    assert Foretold(a, a', folder, batch, body, r, any);
    if !Indexed(a', folder, r) {
      SomeRow(a, folder, batch, order, body, r);
      var row :| Rowed(a, folder, r, row) || StoredAs(folder, batch, r, body, row);
      assert Foretold(a, a', folder, batch, body, r, row);
      assert Rowed(a', folder, r, row);
      forall id
        ensures Rowed(a', folder, r, id) ==> (HasSize(a', id, r.size) <==> !Clash(a, folder, batch, body, r, id))
        ensures Clash(a, folder, batch, body, r, id) ==> Rowed(a', folder, r, id)
      {
        assert Foretold(a, a', folder, batch, body, r, id);
      }
    }
  }

  /**
   When every missing message of a full listing has been stored, in any order
   and among any others, the next comparison finds nothing missing but the
   messages with neither Message-ID nor UIDVALIDITY, whatever the dates of the
   rows, if and only if no row clashes with a listed message. Those without
   either are missing in every round.
   */
  lemma {:induction false} ConvergesIffNoClash(
      a: Archive, folder: Folder, listing: seq<RemoteMessage>, batch: seq<RemoteMessage>, order: seq<MessageId>,
      body: RemoteMessage -> Bytes, parse: Bytes -> Option<string>)
    requires Valid(a, parse) && FullListing(listing, body, parse) && Lists(order, a, folder.localRole)
    requires forall r :: r in batch ==> r in listing
    requires forall r :: r in Missing(a, listing, folder, order) ==> r in batch
    requires StoreAll(a, folder, batch, body, parse).Ok?
    ensures Converges(StoreAll(a, folder, batch, body, parse).value, folder, listing) <==>
              forall r, id :: r in listing ==> !Clash(a, folder, batch, body, r, id)
  {
    var a' := StoreAll(a, folder, batch, body, parse).value;
    ConvergesMeans(a', folder, listing);
    forall r | r in listing && !Anonymous(r)
      ensures CoveredAlways(a', folder, r) <==> forall id :: !Clash(a, folder, batch, body, r, id)
    {
      MissingMeans(a, folder, listing, order, r);
      CoveredAfterIff(a, folder, listing, batch, order, body, parse, r);
    }
    forall r, id | Clash(a, folder, batch, body, r, id)
      ensures !Anonymous(r)
    {
    }
  }

  /** Covered whatever the dates of the rows. */
  ghost predicate CoveredAlways(a: Archive, folder: Folder, r: RemoteMessage) {
    forall order :: Lists(order, a, folder.localRole) ==> CoveredBy(a, folder, order, r)
  }

  lemma {:induction false} ConvergesMeans(a: Archive, folder: Folder, listing: seq<RemoteMessage>)
    ensures Converges(a, folder, listing) <==> forall r :: r in listing && !Anonymous(r) ==> CoveredAlways(a, folder, r)
  {
    forall order, r | Lists(order, a, folder.localRole)
      ensures r in Missing(a, listing, folder, order) <==> r in listing && !CoveredBy(a, folder, order, r)
    {
      MissingMeans(a, folder, listing, order, r);
    }
  }

  /** Whatever the dates of the rows, only what nothing identifies is missing. */
  ghost predicate Converges(a: Archive, folder: Folder, listing: seq<RemoteMessage>) {
    forall order, r :: Lists(order, a, folder.localRole) ==>
      (r in Missing(a, listing, folder, order) <==> r in listing && Anonymous(r))
  }

  /** Every active row of the role that is bound to a listed message holds that message's body. */
  ghost predicate Faithful(a: Archive, folder: Folder, listing: seq<RemoteMessage>, body: RemoteMessage -> Bytes) {
    forall id, r :: r in listing && Rowed(a, folder, r, id) && Names(a, folder, r, id) ==>
      a.messages[id].content == Digest(body(r)) && HasSize(a, id, r.size)
  }

  /**
   Of an archive whose bindings hold their own remotes' bodies, a full sync
   converges if and only if no row of another account or mailbox shares role,
   UIDVALIDITY and UID with a listed message that the Message-ID index does not
   settle, and has another size.
   */
  lemma {:induction false} SyncConverges(
      a: Archive, folder: Folder, listing: seq<RemoteMessage>, batch: seq<RemoteMessage>, order: seq<MessageId>,
      body: RemoteMessage -> Bytes, parse: Bytes -> Option<string>)
    requires Valid(a, parse) && FullListing(listing, body, parse) && Lists(order, a, folder.localRole)
    requires Faithful(a, folder, listing, body)
    requires forall r :: r in batch ==> r in listing
    requires forall r :: r in Missing(a, listing, folder, order) ==> r in batch
    requires StoreAll(a, folder, batch, body, parse).Ok?
    ensures Converges(StoreAll(a, folder, batch, body, parse).value, folder, listing) <==>
              forall r, id :: r in listing && Foreign(a, folder, r, id) ==> !Clash(a, folder, batch, body, r, id)
  {
    ConvergesIffNoClash(a, folder, listing, batch, order, body, parse);
    forall r, id | r in listing && Clash(a, folder, batch, body, r, id)
      ensures Foreign(a, folder, r, id)
    {
    }
  }

  // ----- rounds under a limit -----

  lemma {:induction false} UncoveredSplit(
      s: seq<RemoteMessage>, t: seq<RemoteMessage>, sizes: map<LocalKey, nat>, index: set<string>, localRole: string)
    ensures Uncovered(s + t, sizes, index, localRole) ==
              Uncovered(s, sizes, index, localRole) + Uncovered(t, sizes, index, localRole)
    decreases |t|
  {
    if t == [] {
      assert s + t == s;
    } else {
      assert (s + t)[..|s + t| - 1] == s + t[..|t| - 1];
      UncoveredSplit(s, t[..|t| - 1], sizes, index, localRole);
    }
  }

  /** If coverage only grows, comparing the listing again is comparing what was missing again. */
  lemma {:induction false} UncoveredAgain(
      remotes: seq<RemoteMessage>, sizes: map<LocalKey, nat>, index: set<string>, sizes': map<LocalKey, nat>,
      index': set<string>, localRole: string)
    requires forall r :: r in remotes && Covered(sizes, index, localRole, r) ==> Covered(sizes', index', localRole, r)
    ensures Uncovered(Uncovered(remotes, sizes, index, localRole), sizes', index', localRole)
         == Uncovered(remotes, sizes', index', localRole)
    ensures |Uncovered(remotes, sizes, index, localRole)| <= |remotes|
  {
    if remotes != [] {
      var front, last := remotes[..|remotes| - 1], remotes[|remotes| - 1];
      assert remotes == front + [last];
      UncoveredAgain(front, sizes, index, sizes', index', localRole);
      var rest := Uncovered(front, sizes, index, localRole);
      if !Covered(sizes, index, localRole, last) {
        assert (rest + [last])[..|rest + [last]| - 1] == rest;
      }
    }
  }

  lemma {:induction false} AllCovered(
      remotes: seq<RemoteMessage>, sizes: map<LocalKey, nat>, index: set<string>, localRole: string)
    requires forall r :: r in remotes ==> Covered(sizes, index, localRole, r)
    ensures Uncovered(remotes, sizes, index, localRole) == []
  {
    if remotes != [] {
      AllCovered(remotes[..|remotes| - 1], sizes, index, localRole);
    }
  }

  /** Comparing again after coverage grew over a prefix of what was missing leaves at most the rest. */
  lemma {:induction false} UncoveredRest(
      remotes: seq<RemoteMessage>, n: nat, sizes: map<LocalKey, nat>, index: set<string>, sizes': map<LocalKey, nat>,
      index': set<string>, localRole: string)
    requires n <= |Uncovered(remotes, sizes, index, localRole)|
    requires forall r :: r in remotes && Covered(sizes, index, localRole, r) ==> Covered(sizes', index', localRole, r)
    requires forall r :: r in Uncovered(remotes, sizes, index, localRole)[..n] ==> Covered(sizes', index', localRole, r)
    ensures Uncovered(remotes, sizes', index', localRole)
         == Uncovered(Uncovered(remotes, sizes, index, localRole)[n..], sizes', index', localRole)
    ensures |Uncovered(remotes, sizes', index', localRole)| <= |Uncovered(remotes, sizes, index, localRole)| - n
  {
    var missing := Uncovered(remotes, sizes, index, localRole);
    UncoveredAgain(remotes, sizes, index, sizes', index', localRole);
    assert missing == missing[..n] + missing[n..];
    UncoveredSplit(missing[..n], missing[n..], sizes', index', localRole);
    AllCovered(missing[..n], sizes', index', localRole);
    UncoveredAgain(missing[n..], sizes', index', sizes', index', localRole);
  }

  /** What was covered or stored stays covered, whatever the dates, if and only if no row clashes with any of it. */
  lemma {:induction false} StaysCoveredIff(
      a: Archive, folder: Folder, listing: seq<RemoteMessage>, batch: seq<RemoteMessage>, order: seq<MessageId>,
      body: RemoteMessage -> Bytes, parse: Bytes -> Option<string>)
    requires Valid(a, parse) && FullListing(listing, body, parse) && Lists(order, a, folder.localRole)
    requires forall r :: r in listing ==> !Anonymous(r)
    requires forall r :: r in batch ==> r in listing
    requires StoreAll(a, folder, batch, body, parse).Ok?
    ensures
      StaysCovered(a, StoreAll(a, folder, batch, body, parse).value, folder, listing, batch, order) <==>
      forall r, id :: r in listing && Due(a, folder, batch, order, r) ==> !Clash(a, folder, batch, body, r, id)
  {
    var a' := StoreAll(a, folder, batch, body, parse).value;
    forall r | r in listing && Due(a, folder, batch, order, r)
      ensures (forall order' :: Lists(order', a', folder.localRole) ==> CoveredBy(a', folder, order', r)) <==>
                forall id :: !Clash(a, folder, batch, body, r, id)
    {
      CoveredAfterIff(a, folder, listing, batch, order, body, parse, r);
    }
  }

  /**
   Under a limit, what a round leaves missing then lies in the part it did not
   download, so the list shrinks by at least the batch.
   */
  lemma {:induction false} LimitedRoundShrinks(
      a: Archive, folder: Folder, listing: seq<RemoteMessage>, limit: Option<nat>, order: seq<MessageId>,
      order': seq<MessageId>, body: RemoteMessage -> Bytes, parse: Bytes -> Option<string>)
    requires Valid(a, parse) && FullListing(listing, body, parse) && Lists(order, a, folder.localRole)
    requires forall r :: r in listing ==> !Anonymous(r)
    requires StoreAll(a, folder, Truncated(Missing(a, listing, folder, order), limit), body, parse).Ok?
    requires
      var batch := Truncated(Missing(a, listing, folder, order), limit);
      forall r, id :: r in listing && Due(a, folder, batch, order, r) ==> !Clash(a, folder, batch, body, r, id)
    requires
      var a' := StoreAll(a, folder, Truncated(Missing(a, listing, folder, order), limit), body, parse).value;
      Lists(order', a', folder.localRole)
    ensures
      var missing := Missing(a, listing, folder, order);
      var batch := Truncated(missing, limit);
      var a' := StoreAll(a, folder, batch, body, parse).value;
      && Missing(a', listing, folder, order') == Missing(a', missing[|batch|..], folder, order')
      && |Missing(a', listing, folder, order')| <= |missing| - |batch|
  {
    var missing := Missing(a, listing, folder, order);
    var batch := Truncated(missing, limit);
    assert batch == missing[..|batch|];
    forall r | r in batch
      ensures r in listing
    {
      assert r in missing;
      MissingMeans(a, folder, listing, order, r);
    }
    StaysCoveredIff(a, folder, listing, batch, order, body, parse);
    RestIsMissing(a, StoreAll(a, folder, batch, body, parse).value, folder, listing, |batch|, order, order');
  }

  lemma {:induction false} RestIsMissing(
      a: Archive, a': Archive, folder: Folder, listing: seq<RemoteMessage>, n: nat, order: seq<MessageId>,
      order': seq<MessageId>)
    requires Lists(order, a, folder.localRole) && Lists(order', a', folder.localRole)
    requires n <= |Missing(a, listing, folder, order)|
    requires forall r :: r in Missing(a, listing, folder, order)[..n] ==> r in listing
    requires StaysCovered(a, a', folder, listing, Missing(a, listing, folder, order)[..n], order)
    ensures Missing(a', listing, folder, order') == Missing(a', Missing(a, listing, folder, order)[n..], folder, order')
    ensures |Missing(a', listing, folder, order')| <= |Missing(a, listing, folder, order)| - n
  {
    var batch := Missing(a, listing, folder, order)[..n];
    forall r | r in listing && Due(a, folder, batch, order, r)
      ensures CoveredBy(a', folder, order', r)
    {
    }
    UncoveredRest(listing, n,
      LocalSizes(a, folder.localRole, order), RfcIndex(a, folder.localRole, folder.scope),
      LocalSizes(a', folder.localRole, order'), RfcIndex(a', folder.localRole, folder.scope), folder.localRole);
  }

  /** Covered before a batch, or in it. */
  predicate Due(a: Archive, folder: Folder, batch: seq<RemoteMessage>, order: seq<MessageId>, r: RemoteMessage)
    requires forall id :: id in order ==> id in a.messages
  {
    r in batch || CoveredBy(a, folder, order, r)
  }

  ghost predicate StaysCovered(
      a: Archive, a': Archive, folder: Folder, listing: seq<RemoteMessage>, batch: seq<RemoteMessage>,
      order: seq<MessageId>)
    requires forall id :: id in order ==> id in a.messages
  {
    forall order', r :: Lists(order', a', folder.localRole) && r in listing && Due(a, folder, batch, order, r) ==>
      CoveredBy(a', folder, order', r)
  }

  /**
   An archive on which no round ever clashes: a row that speaks for a listed
   message has content of the listed size, and its file is intact unless it is
   the message's own row and the only one.
   */
  ghost predicate Calm(a: Archive, folder: Folder, listing: seq<RemoteMessage>) {
    forall r, id :: r in listing && Rowed(a, folder, r, id) && !Indexed(a, folder, r) ==> SpeaksWell(a, folder, r, id)
  }

  ghost predicate SpeaksWell(a: Archive, folder: Folder, r: RemoteMessage, id: MessageId)
    requires id in a.messages
  {
    && |a.messages[id].content.data| == r.size
    && (HasSize(a, id, r.size) || forall other :: !Foreign(a, folder, r, other))
  }

  /** A row of a calm archive never clashes with a message that is covered or stored. */
  lemma {:induction false} CalmRowsDoNotClash(
      a: Archive, folder: Folder, listing: seq<RemoteMessage>, batch: seq<RemoteMessage>, order: seq<MessageId>,
      body: RemoteMessage -> Bytes, parse: Bytes -> Option<string>, r: RemoteMessage, id: MessageId)
    requires Valid(a, parse) && FullListing(listing, body, parse) && Lists(order, a, folder.localRole)
    requires Calm(a, folder, listing) && r in listing && (forall x :: x in batch ==> x in listing)
    requires StoreAll(a, folder, batch, body, parse).Ok? && Due(a, folder, batch, order, r)
    ensures !Clash(a, folder, batch, body, r, id)
  {
    if Rowed(a, folder, r, id) && !IndexedAfter(a, folder, batch, r) && !HasSize(a, id, r.size) {
      assert SpeaksWell(a, folder, r, id);
      if CoveredBy(a, folder, order, r) {
        SkippedOnlyOnARowOfItsUid(a, folder, order, r);
        var other :| Rowed(a, folder, r, other) && HasSize(a, other, r.size);
        OwnRowIsUnique(a, folder, r, id, other, parse);
      } else {
        OwnRowIsUnique(a, folder, r, id, id, parse);
        AdmittedIsOwn(a, folder, batch, body, parse, r, id);
      }
    }
  }

  lemma {:induction false} OwnRowIsUnique(
      a: Archive, folder: Folder, r: RemoteMessage, id: MessageId, id': MessageId, parse: Bytes -> Option<string>)
    requires Valid(a, parse) && Rowed(a, folder, r, id) && Rowed(a, folder, r, id')
    requires forall other :: !Foreign(a, folder, r, other)
    ensures id == id' && Names(a, folder, r, id)
  {
    assert !Foreign(a, folder, r, id) && !Foreign(a, folder, r, id');
  }

  /** The row already bound to a message that a batch stores is the row it is stored as. */
  lemma {:induction false} AdmittedIsOwn(
      a: Archive, folder: Folder, batch: seq<RemoteMessage>, body: RemoteMessage -> Bytes,
      parse: Bytes -> Option<string>, r: RemoteMessage, id: MessageId)
    requires Valid(a, parse) && StoreAll(a, folder, batch, body, parse).Ok?
    requires r in batch && Rowed(a, folder, r, id) && Names(a, folder, r, id)
    ensures a.messages[id].content == Digest(body(r))
    decreases |batch|
  {
    var first := batch[0];
    var a1 := Ingest(a, StoreRequest(folder, first), body(first), parse);
    if first == r {
      assert !BoundElsewhere(a, IdFor(folder, r, body(r)), PlaceOf(folder, r));
      assert id == IdFor(folder, r, body(r));
      assert IdAgrees(a, id);
    } else {
      IngestKeepsValid(a, StoreRequest(folder, first), body(first), parse);
      assert IdAgrees(a, IdFor(folder, first, body(first)));
      assert Rowed(a1, folder, r, id) && Names(a1, folder, r, id);
      assert r in batch[1..];
      AdmittedIsOwn(a1, folder, batch[1..], body, parse, r, id);
    }
  }

  lemma {:induction false} StoreKeepsCalm(
      a: Archive, folder: Folder, listing: seq<RemoteMessage>, batch: seq<RemoteMessage>, body: RemoteMessage -> Bytes,
      parse: Bytes -> Option<string>)
    requires Valid(a, parse) && FullListing(listing, body, parse) && Calm(a, folder, listing)
    requires (forall x :: x in batch ==> x in listing) && StoreAll(a, folder, batch, body, parse).Ok?
    ensures Calm(StoreAll(a, folder, batch, body, parse).value, folder, listing)
  {
    var a' := StoreAll(a, folder, batch, body, parse).value;
    forall r, id | r in listing && Rowed(a', folder, r, id) && !Indexed(a', folder, r)
      ensures SpeaksWell(a', folder, r, id)
    {
      StoreKeepsCalmRow(a, folder, listing, batch, r, id, body, parse);
    }
  }

  lemma {:induction false} StoreKeepsCalmRow(
      a: Archive, folder: Folder, listing: seq<RemoteMessage>, batch: seq<RemoteMessage>, r: RemoteMessage,
      id: MessageId, body: RemoteMessage -> Bytes, parse: Bytes -> Option<string>)
    requires Valid(a, parse) && FullListing(listing, body, parse) && Calm(a, folder, listing) && r in listing
    requires (forall x :: x in batch ==> x in listing) && StoreAll(a, folder, batch, body, parse).Ok?
    requires
      var a' := StoreAll(a, folder, batch, body, parse).value;
      Rowed(a', folder, r, id) && !Indexed(a', folder, r)
    ensures SpeaksWell(StoreAll(a, folder, batch, body, parse).value, folder, r, id)
  {
    var a' := StoreAll(a, folder, batch, body, parse).value;
    StoreAllExtends(a, folder, listing, batch, r, id, body, parse);
    StoreAllSizes(a, folder, batch, body, parse, a'.messages[id].content);
    if !StoredAs(folder, batch, r, body, id) {
      assert SpeaksWell(a, folder, r, id);
      if !HasSize(a', id, r.size) {
        forall other
          ensures !Foreign(a', folder, r, other)
        {
          assert !Foreign(a, folder, r, other);
          NoNewForeign(a, folder, listing, batch, r, other, body, parse);
        }
      }
    }
  }

  lemma {:induction false} NoNewForeign(
      a: Archive, folder: Folder, listing: seq<RemoteMessage>, batch: seq<RemoteMessage>, r: RemoteMessage,
      id: MessageId, body: RemoteMessage -> Bytes, parse: Bytes -> Option<string>)
    requires Valid(a, parse) && FullListing(listing, body, parse) && r in listing
    requires (forall x :: x in batch ==> x in listing) && StoreAll(a, folder, batch, body, parse).Ok?
    ensures Foreign(StoreAll(a, folder, batch, body, parse).value, folder, r, id) ==> Foreign(a, folder, r, id)
  {
    StoreAllExtends(a, folder, listing, batch, r, id, body, parse);
    if Names(a, folder, r, id) || StoredAs(folder, batch, r, body, id) {
      KeepsItsName(a, folder, listing, batch, r, id, body, parse);
    }
  }

  /** A row under a listed message's own name keeps it, and a stored row gets it. */
  lemma {:induction false} KeepsItsName(
      a: Archive, folder: Folder, listing: seq<RemoteMessage>, batch: seq<RemoteMessage>, r: RemoteMessage,
      id: MessageId, body: RemoteMessage -> Bytes, parse: Bytes -> Option<string>)
    requires Valid(a, parse) && FullListing(listing, body, parse) && r in listing
    requires (forall x :: x in batch ==> x in listing) && StoreAll(a, folder, batch, body, parse).Ok?
    requires Names(a, folder, r, id) || StoredAs(folder, batch, r, body, id)
    ensures Names(StoreAll(a, folder, batch, body, parse).value, folder, r, id)
    decreases |batch|
  {
    if batch != [] {
      var first, rest := batch[0], batch[1..];
      var a1 := Ingest(a, StoreRequest(folder, first), body(first), parse);
      IngestKeepsValid(a, StoreRequest(folder, first), body(first), parse);
      assert IdAgrees(a, IdFor(folder, first, body(first)));
      assert first in batch && forall x :: x in batch <==> x == first || x in rest;
      assert Names(a1, folder, r, id) || StoredAs(folder, rest, r, body, id);
      KeepsItsName(a1, folder, listing, rest, r, id, body, parse);
    }
  }

  // ----- repeated syncs -----

  /** One sync under a limit, under some dates. */
  ghost predicate Round(
      a: Archive, a': Archive, folder: Folder, listing: seq<RemoteMessage>, limit: nat, body: RemoteMessage -> Bytes,
      parse: Bytes -> Option<string>)
  {
    exists order :: Lists(order, a, folder.localRole) &&
      var batch := Truncated(Missing(a, listing, folder, order), Some(limit));
      StoreAll(Refreshed(a, folder, listing), folder, batch, body, parse) == Ok(a')
  }

  lemma {:induction false} RefreshKeepsCalm(a: Archive, folder: Folder, listing: seq<RemoteMessage>)
    ensures Calm(Refreshed(a, folder, listing), folder, listing) <==> Calm(a, folder, listing)
  {
    var a' := Refreshed(a, folder, listing);
    RefreshedRows(a, folder, listing);
    forall r, id
      ensures Rowed(a', folder, r, id) <==> Rowed(a, folder, r, id)
      ensures Foreign(a', folder, r, id) <==> Foreign(a, folder, r, id)
    {
      SameRfcIds(a, a', folder.localRole);
    }
    forall r
      ensures Indexed(a', folder, r) <==> Indexed(a, folder, r)
    {
      SameIndex(a, a', folder);
    }
  }

  lemma {:induction false} SameIndex(a: Archive, a': Archive, folder: Folder)
    requires SameButFlags(a, a')
    ensures RfcIndex(a', folder.localRole, folder.scope) == RfcIndex(a, folder.localRole, folder.scope)
  {
    SameRfcIds(a, a', folder.localRole);
    SameRfcIds(a, a', "inbox");
    SameRfcIds(a, a', "sent");
    SameRfcIds(a, a', "drafts");
  }

  /** Whether every binding holds its own remote's body does not depend on flags. */
  lemma {:induction false} RefreshKeepsFaithful(
      a: Archive, folder: Folder, listing: seq<RemoteMessage>, body: RemoteMessage -> Bytes)
    ensures Faithful(Refreshed(a, folder, listing), folder, listing, body) <==> Faithful(a, folder, listing, body)
  {
    var a' := Refreshed(a, folder, listing);
    RefreshedRows(a, folder, listing);
    SameRfcIds(a, a', folder.localRole);
    forall r, id
      ensures Rowed(a', folder, r, id) <==> Rowed(a, folder, r, id)
      ensures Names(a', folder, r, id) <==> Names(a, folder, r, id)
    {
    }
  }

  /** No sync stores more messages than its limit. */
  lemma {:induction false} RoundStoresAtMost(
      a: Archive, a': Archive, folder: Folder, listing: seq<RemoteMessage>, limit: nat, body: RemoteMessage -> Bytes,
      parse: Bytes -> Option<string>)
    requires Round(a, a', folder, listing, limit, body, parse)
    ensures a.messages.Keys <= a'.messages.Keys && |a'.messages.Keys - a.messages.Keys| <= limit
  {
    var order :| Lists(order, a, folder.localRole) &&
      var batch := Truncated(Missing(a, listing, folder, order), Some(limit));
      StoreAll(Refreshed(a, folder, listing), folder, batch, body, parse) == Ok(a');
    var missing := Missing(a, listing, folder, order);
    RefreshedRows(a, folder, listing);
    TruncatedIsPrefix(missing, Some(limit));
    StoreAllAdds(Refreshed(a, folder, listing), folder, Truncated(missing, Some(limit)), body, parse);
  }

  function Less(n: nat, limit: nat): nat {
    if n <= limit then 0 else n - limit
  }

  lemma {:induction false} RoundKeepsAndShrinks(
      a: Archive, a': Archive, folder: Folder, listing: seq<RemoteMessage>, limit: nat, n: nat, order': seq<MessageId>,
      body: RemoteMessage -> Bytes, parse: Bytes -> Option<string>)
    requires Valid(a, parse) && FullListing(listing, body, parse) && Calm(a, folder, listing)
    requires forall r :: r in listing ==> !Anonymous(r)
    requires Round(a, a', folder, listing, limit, body, parse) && Lists(order', a', folder.localRole)
    requires AtMostMissing(a, folder, listing, n)
    ensures Valid(a', parse) && Calm(a', folder, listing)
    ensures |Missing(a', listing, folder, order')| <= Less(n, limit)
  {
    var order :| Lists(order, a, folder.localRole) &&
      var batch := Truncated(Missing(a, listing, folder, order), Some(limit));
      StoreAll(Refreshed(a, folder, listing), folder, batch, body, parse) == Ok(a');
    var refreshed := Refreshed(a, folder, listing);
    RefreshKeepsMissing(a, folder, listing, order, parse);
    RefreshKeepsCalm(a, folder, listing);
    var batch := Truncated(Missing(refreshed, listing, folder, order), Some(limit));
    forall r | r in batch
      ensures r in listing
    {
      assert r in Missing(refreshed, listing, folder, order);
      MissingMeans(refreshed, folder, listing, order, r);
    }
    StoreKeepsCalm(refreshed, folder, listing, batch, body, parse);
    StoreAllValid(refreshed, folder, batch, body, parse);
    forall r, id | r in listing && Due(refreshed, folder, batch, order, r)
      ensures !Clash(refreshed, folder, batch, body, r, id)
    {
      CalmRowsDoNotClash(refreshed, folder, listing, batch, order, body, parse, r, id);
    }
    LimitedRoundShrinks(refreshed, folder, listing, Some(limit), order, order', body, parse);
  }

  lemma {:induction false} StoreAllValid(
      a: Archive, folder: Folder, batch: seq<RemoteMessage>, body: RemoteMessage -> Bytes,
      parse: Bytes -> Option<string>)
    requires Valid(a, parse) && StoreAll(a, folder, batch, body, parse).Ok?
    ensures Valid(StoreAll(a, folder, batch, body, parse).value, parse)
    decreases |batch|
  {
    if batch != [] {
      IngestKeepsValid(a, StoreRequest(folder, batch[0]), body(batch[0]), parse);
      StoreAllValid(
        Ingest(a, StoreRequest(folder, batch[0]), body(batch[0]), parse), folder, batch[1..], body, parse);
    }
  }

  ghost predicate IsRounds(
      archives: seq<Archive>, folder: Folder, listing: seq<RemoteMessage>, limit: nat, body: RemoteMessage -> Bytes,
      parse: Bytes -> Option<string>)
  {
    && archives != []
    && forall k :: 0 <= k < |archives| - 1 ==> Round(archives[k], archives[k + 1], folder, listing, limit, body, parse)
  }

  /** What is left of n missing messages after k rounds. */
  function Left(n: nat, limit: nat, k: nat): nat {
    if k == 0 then n else Less(Left(n, limit, k - 1), limit)
  }

  lemma {:induction false} LeftIs(n: nat, limit: nat, k: nat)
    ensures Left(n, limit, k) == Less(n, k * limit)
  {
    if k > 0 {
      LeftIs(n, limit, k - 1);
      assert (k - 1) * limit + limit == k * limit;
    }
  }

  ghost predicate AtMostMissing(a: Archive, folder: Folder, listing: seq<RemoteMessage>, n: nat) {
    forall order :: Lists(order, a, folder.localRole) ==> |Missing(a, listing, folder, order)| <= n
  }

  lemma {:induction false} RoundsShrink(
      archives: seq<Archive>, k: nat, folder: Folder, listing: seq<RemoteMessage>, limit: nat, n: nat,
      body: RemoteMessage -> Bytes, parse: Bytes -> Option<string>)
    requires IsRounds(archives, folder, listing, limit, body, parse) && k < |archives|
    requires Valid(archives[0], parse) && FullListing(listing, body, parse) && Calm(archives[0], folder, listing)
    requires forall r :: r in listing ==> !Anonymous(r)
    requires AtMostMissing(archives[0], folder, listing, n)
    ensures Valid(archives[k], parse) && Calm(archives[k], folder, listing)
    ensures AtMostMissing(archives[k], folder, listing, Left(n, limit, k))
  {
    if k > 0 {
      RoundsShrink(archives, k - 1, folder, listing, limit, n, body, parse);
      var left := Left(n, limit, k - 1);
      assert Round(archives[k - 1], archives[k - 1 + 1], folder, listing, limit, body, parse);
      SomeListing(archives[k], folder.localRole);
      forall order | Lists(order, archives[k], folder.localRole)
        ensures Valid(archives[k], parse) && Calm(archives[k], folder, listing)
        ensures |Missing(archives[k], listing, folder, order)| <= Less(left, limit)
      {
        RoundKeepsAndShrinks(archives[k - 1], archives[k], folder, listing, limit, left, order, body, parse);
      }
    }
  }

  /**
   From a calm archive, k syncs of one listing under a limit N leave at most
   n - kN of the n messages missing at first, whatever the dates in between:
   after ceil(n / N) rounds nothing is missing.
   */
  lemma {:induction false} RoundsEnd(
      archives: seq<Archive>, k: nat, folder: Folder, listing: seq<RemoteMessage>, limit: nat, n: nat,
      order: seq<MessageId>, body: RemoteMessage -> Bytes, parse: Bytes -> Option<string>)
    requires IsRounds(archives, folder, listing, limit, body, parse) && k < |archives|
    requires Valid(archives[0], parse) && FullListing(listing, body, parse) && Calm(archives[0], folder, listing)
    requires forall r :: r in listing ==> !Anonymous(r)
    requires AtMostMissing(archives[0], folder, listing, n)
    requires Lists(order, archives[k], folder.localRole)
    ensures |Missing(archives[k], listing, folder, order)| <= Less(n, k * limit)
    ensures n <= k * limit ==> Missing(archives[k], listing, folder, order) == []
  {
    RoundsShrink(archives, k, folder, listing, limit, n, body, parse);
    LeftIs(n, limit, k);
  }

  /** A row that speaks for a listed message with the wrong size, and whose file is intact. */
  predicate Lasting(a: Archive, folder: Folder, r: RemoteMessage, id: MessageId) {
    && Rowed(a, folder, r, id)
    && |a.messages[id].content.data| != r.size && HasSize(a, id, |a.messages[id].content.data|)
  }

  /** A batch neither removes such a row nor changes what it says. */
  lemma {:induction false} StoreKeepsLasting(
      a: Archive, folder: Folder, listing: seq<RemoteMessage>, batch: seq<RemoteMessage>, r: RemoteMessage,
      id: MessageId, body: RemoteMessage -> Bytes, parse: Bytes -> Option<string>)
    requires Valid(a, parse) && FullListing(listing, body, parse) && r in listing && Lasting(a, folder, r, id)
    requires (forall x :: x in batch ==> x in listing) && StoreAll(a, folder, batch, body, parse).Ok?
    ensures Lasting(StoreAll(a, folder, batch, body, parse).value, folder, r, id)
  {
    StoreAllExtends(a, folder, listing, batch, r, id, body, parse);
    StoreAllSizes(a, folder, batch, body, parse, a.messages[id].content);
  }

  lemma {:induction false} RefreshKeepsLasting(
      a: Archive, folder: Folder, listing: seq<RemoteMessage>, r: RemoteMessage, id: MessageId)
    requires Lasting(a, folder, r, id)
    ensures Lasting(Refreshed(a, folder, listing), folder, r, id)
  {
    RefreshedRows(a, folder, listing);
    SameRfcIds(a, Refreshed(a, folder, listing), folder.localRole);
  }

  lemma {:induction false} RoundKeepsLasting(
      a: Archive, a': Archive, folder: Folder, listing: seq<RemoteMessage>, limit: nat, r: RemoteMessage,
      id: MessageId, body: RemoteMessage -> Bytes, parse: Bytes -> Option<string>)
    requires Valid(a, parse) && FullListing(listing, body, parse) && r in listing && Lasting(a, folder, r, id)
    requires Round(a, a', folder, listing, limit, body, parse)
    ensures Valid(a', parse) && Lasting(a', folder, r, id)
  {
    var order :| Lists(order, a, folder.localRole) &&
      var batch := Truncated(Missing(a, listing, folder, order), Some(limit));
      StoreAll(Refreshed(a, folder, listing), folder, batch, body, parse) == Ok(a');
    var refreshed := Refreshed(a, folder, listing);
    var batch := Truncated(Missing(a, listing, folder, order), Some(limit));
    forall x | x in batch
      ensures x in listing
    {
      assert x in Missing(a, listing, folder, order);
      MissingMeans(a, folder, listing, order, x);
    }
    RefreshKeepsMissing(a, folder, listing, order, parse);
    RefreshKeepsLasting(a, folder, listing, r, id);
    StoreKeepsLasting(refreshed, folder, listing, batch, r, id, body, parse);
    StoreAllValid(refreshed, folder, batch, body, parse);
  }

  /**
   As long as such a row stands, and it stands through every round, a message
   without a Message-ID is missing again under some dates: no number of syncs
   settles it.
   */
  lemma {:induction false} LastingRowNeverEnds(
      archives: seq<Archive>, k: nat, folder: Folder, listing: seq<RemoteMessage>, limit: nat, r: RemoteMessage,
      id: MessageId, body: RemoteMessage -> Bytes, parse: Bytes -> Option<string>)
    requires IsRounds(archives, folder, listing, limit, body, parse) && k < |archives|
    requires Valid(archives[0], parse) && FullListing(listing, body, parse)
    requires r in listing && r.rfcId.None? && Lasting(archives[0], folder, r, id)
    ensures Valid(archives[k], parse) && Lasting(archives[k], folder, r, id)
    ensures exists order ::
              Lists(order, archives[k], folder.localRole) && r in Missing(archives[k], listing, folder, order)
  {
    if k > 0 {
      LastingRowNeverEnds(archives, k - 1, folder, listing, limit, r, id, body, parse);
      assert Round(archives[k - 1], archives[k - 1 + 1], folder, listing, limit, body, parse);
      RoundKeepsLasting(archives[k - 1], archives[k], folder, listing, limit, r, id, body, parse);
    }
    LastingIsMissing(archives[k], folder, listing, r, id);
  }

  lemma {:induction false} LastingIsMissing(
      a: Archive, folder: Folder, listing: seq<RemoteMessage>, r: RemoteMessage, id: MessageId)
    requires r in listing && r.rfcId.None? && Lasting(a, folder, r, id)
    ensures exists order :: Lists(order, a, folder.localRole) && r in Missing(a, listing, folder, order)
  {
    AnyRowMayBeLast(a, folder.localRole, id);
    var order :| Lists(order, a, folder.localRole) && order != [] && order[|order| - 1] == id;
    LastRowDecides(a, folder, order, r, id);
    MissingMeans(a, folder, listing, order, r);
  }

  // ----- a row of another mailbox -----

  const INBOX := Folder("me", "INBOX", "inbox", LocalFolder)
  const ARCHIVE := Folder("me", "Archive", "archive", LocalFolder)

  function NoMessageId(data: Bytes): Option<string> {
    None
  }

  function Bodies(r: RemoteMessage): Bytes {
    if r.size == 1 then [2] else [2, 2]
  }

  /** UID 1 under UIDVALIDITY 1, without a Message-ID. */
  function FirstMail(size: nat): RemoteMessage {
    RemoteMessage(1, Some(1), size, None, false, false)
  }

  const MOVED: MessageId := IdFor(INBOX, FirstMail(1), [1])

  /** A mail of INBOX was moved to the archive role, and the process died before its binding was cleared. */
  function HalfMoved(): Archive {
    var ingested := Ingest(EMPTY, StoreRequest(INBOX, FirstMail(1)), [1], NoMessageId);
    ingested.(messages := ingested.messages[MOVED := ingested.messages[MOVED].(localRole := "archive")])
  }

  lemma {:induction false} HalfMovedIsReached()
    ensures
      UpdateLocalState(
        Ingest(EMPTY, StoreRequest(INBOX, FirstMail(1)), [1], NoMessageId), "me", MOVED, "archive", false, false)
      == Ok(HalfMoved())
    ensures Valid(HalfMoved(), NoMessageId)
    ensures forall size :: Foreign(HalfMoved(), ARCHIVE, FirstMail(size), MOVED)
    ensures forall id :: id in HalfMoved().messages ==> id == MOVED
    ensures HasSize(HalfMoved(), MOVED, 1) && HalfMoved().messages[MOVED].content == Digest([1])
  {
    var ingested := Ingest(EMPTY, StoreRequest(INBOX, FirstMail(1)), [1], NoMessageId);
    IngestKeepsValid(EMPTY, StoreRequest(INBOX, FirstMail(1)), [1], NoMessageId);
    LocalStateKeepsValid(ingested, "me", MOVED, "archive", false, false, NoMessageId);
    assert "INBOX"[0] != "Archive"[0];
  }

  /** Another mail of the same size in the Archive mailbox is then never downloaded, and no row holds it. */
  lemma {:induction false} AnotherMailboxHidesAMessage()
    ensures exists order ::
              Lists(order, HalfMoved(), "archive") &&
                FirstMail(1) !in Missing(HalfMoved(), [FirstMail(1)], ARCHIVE, order)
    ensures forall id :: id in HalfMoved().messages ==> HalfMoved().messages[id].content != Digest(Bodies(FirstMail(1)))
  {
    HalfMovedIsReached();
    assert [1][0] as bv8 != [2][0] as bv8;
    assert Foreign(HalfMoved(), ARCHIVE, FirstMail(1), MOVED) && HasSize(HalfMoved(), MOVED, 1);
    SkippedUnstoredIff(HalfMoved(), ARCHIVE, [FirstMail(1)], FirstMail(1));
  }

  /** One of another size is downloaded and stored, and may be missing again all the same. */
  lemma {:induction false} AnotherMailboxUnsettlesAMessage()
    ensures Faithful(HalfMoved(), ARCHIVE, [FirstMail(2)], Bodies)
    ensures StoreAll(HalfMoved(), ARCHIVE, [FirstMail(2)], Bodies, NoMessageId).Ok?
    ensures
      var a' := StoreAll(HalfMoved(), ARCHIVE, [FirstMail(2)], Bodies, NoMessageId).value;
      exists order :: Lists(order, a', "archive") && FirstMail(2) in Missing(a', [FirstMail(2)], ARCHIVE, order)
  {
    var a, r := HalfMoved(), FirstMail(2);
    HalfMovedIsReached();
    SomeListing(a, "archive");
    var order :| Lists(order, a, "archive");
    assert Clash(a, ARCHIVE, [r], Bodies, r, MOVED);
    assert "INBOX"[0] != "Archive"[0];
    assert Admits(a, StoreRequest(ARCHIVE, r), Bodies(r));
    assert StoreAll(a, ARCHIVE, [r], Bodies, NoMessageId).Ok?;
    assert Ingest(a, StoreRequest(ARCHIVE, r), Bodies(r), NoMessageId) ==
           StoreAll(a, ARCHIVE, [r], Bodies, NoMessageId).value;
    MissingMeans(a, ARCHIVE, [r], order, r);
    CoveredAfterIff(a, ARCHIVE, [r], [r], order, Bodies, NoMessageId, r);
    var a' := StoreAll(a, ARCHIVE, [r], Bodies, NoMessageId).value;
    var order' :| Lists(order', a', "archive") && !CoveredBy(a', ARCHIVE, order', r);
    MissingMeans(a', ARCHIVE, [r], order', r);
  }

  /** A message stored from its headers is refused when a later sync brings its whole body. */
  lemma {:induction false} HeadersThenBodyIsRefused()
    ensures
      var a := Ingest(EMPTY, StoreRequest(INBOX, FirstMail(1)), [1], NoMessageId);
      StoreAll(a, INBOX, [FirstMail(2)], Bodies, NoMessageId) == Err
  {
    var a := Ingest(EMPTY, StoreRequest(INBOX, FirstMail(1)), [1], NoMessageId);
    assert MOVED in a.bindings && a.bindings[MOVED].remote == PlaceOf(INBOX, FirstMail(2));
    assert |[1 as bv8]| != |Bodies(FirstMail(2))|;
    assert BoundElsewhere(a, IdFor(INBOX, FirstMail(2), Bodies(FirstMail(2))), PlaceOf(INBOX, FirstMail(2)));
  }
}
