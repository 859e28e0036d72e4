/**
 The archive: content-addressed blob files and the storage tables, with the
 transactions that change them.

 A content id (SHA-256 of the bytes) is modelled as the bytes themselves, and
 a message id (SHA-256 of a seed) as the fields of its seed, so both are
 injective. Header parsing is the parameter `parse`: the normalized Message-ID
 of some bytes, if they have one.
 */
module Storage {
  import opened Basics

  datatype Digest = Digest(data: Bytes)

  /** A remote message by name: the UNIQUE columns of `remote_bindings`. */
  datatype Remote = Remote(account: string, mailbox: string, uidvalidity: nat, uid: nat)

  datatype MessageId =
    | RemoteBound(account: string, localRole: string, content: Digest, mailbox: string, uidvalidity: nat, uid: nat)
    | Fallback(account: string, localRole: string, seedHint: string, content: Digest)
    | Given(text: string)

  datatype Message = Message(
    account: string, content: Digest, localRole: string, readState: bool, starred: bool, deleted: bool)

  datatype Binding = Binding(remote: Remote, stale: bool)

  /**
   `files` holds the blob files, which may be damaged; `blobs` the `blobs` and
   `message_metadata` rows, written together, as the Message-ID they record.
   */
  datatype Archive = Archive(
    files: map<Digest, Bytes>,
    blobs: map<Digest, Option<string>>,
    messages: map<MessageId, Message>,
    bindings: map<MessageId, Binding>)

  const EMPTY := Archive(map[], map[], map[], map[])

  datatype Request = Request(
    account: string, localRole: string, readState: bool, starred: bool,
    hint: Option<string>, seedHint: string, remote: Option<Remote>)

  function IngestMessageId(request: Request, content: Digest): MessageId {
    match request.hint
    case Some(hint) => Given(hint)
    case None =>
      match request.remote
      case Some(remote) =>
        RemoteBound(request.account, request.localRole, content, remote.mailbox, remote.uidvalidity, remote.uid)
      case None =>
        Fallback(request.account, request.localRole, request.seedHint, content)
  }

  /** Hashed ids agree exactly when account, role and content do, and the remote's name or, without one, the seed. */
  lemma {:induction false} SameIdIff(x: Request, c: Digest, y: Request, d: Digest)
    requires x.hint.None? && y.hint.None?
    ensures IngestMessageId(x, c) == IngestMessageId(y, d) <==>
              && x.account == y.account && x.localRole == y.localRole && c == d
              && (if x.remote.Some? && y.remote.Some? then
                    x.remote.value == y.remote.value.(account := x.remote.value.account)
                  else x.remote.None? && y.remote.None? && x.seedHint == y.seedHint)
  {
  }

  /** The UNIQUE constraint refuses a second message id for the same remote. */
  predicate BoundElsewhere(a: Archive, id: MessageId, remote: Remote) {
    exists other :: other in a.bindings && other != id && a.bindings[other].remote == remote
  }

  predicate Admits(a: Archive, request: Request, data: Bytes) {
    request.remote.Some? ==> !BoundElsewhere(a, IngestMessageId(request, Digest(data)), request.remote.value)
  }

  /** `message_id` conflicts update every column but the account. */
  function UpsertMessage(a: Archive, request: Request, id: MessageId, content: Digest): map<MessageId, Message> {
    var account := if id in a.messages then a.messages[id].account else request.account;
    a.messages[id := Message(account, content, request.localRole, request.readState, request.starred, false)]
  }

  /** The archive with the blob file of `data` in place, and nothing else changed. */
  function WithBlob(a: Archive, data: Bytes): Archive {
    a.(files := a.files[Digest(data) := data])
  }

  /** The blob file is written first; the four upserts then commit together or not at all. */
  function Ingest(a: Archive, request: Request, data: Bytes, parse: Bytes -> Option<string>): Archive {
    var content := Digest(data);
    var id := IngestMessageId(request, content);
    var files := a.files[content := data];
    if !Admits(a, request, data) then
      a.(files := files)
    else
      Archive(
        files,
        a.blobs[content := parse(data)],
        UpsertMessage(a, request, id, content),
        if request.remote.Some? then a.bindings[id := Binding(request.remote.value, false)] else a.bindings)
  }

  /**
   An admitted ingest makes one active row, with the bytes and the state asked
   for, bound to the remote it came from; every other row and binding stays.
   */
  lemma {:induction false} IngestedExactly(
      a: Archive, request: Request, data: Bytes, parse: Bytes -> Option<string>, other: MessageId)
    requires Admits(a, request, data)
    ensures
      var a', id := Ingest(a, request, data, parse), IngestMessageId(request, Digest(data));
      && id in a'.messages && !a'.messages[id].deleted && a'.messages[id].localRole == request.localRole
      && a'.messages[id].readState == request.readState && a'.messages[id].starred == request.starred
      && a'.messages[id].account == (if id in a.messages then a.messages[id].account else request.account)
      && a'.messages[id].content in a'.files && a'.files[a'.messages[id].content] == data
      && a'.messages[id].content in a'.blobs && a'.blobs[a'.messages[id].content] == parse(data)
      && (request.remote.Some? ==> id in a'.bindings && a'.bindings[id] == Binding(request.remote.value, false))
      && (request.remote.None? ==> a'.bindings == a.bindings)
    ensures
      var a' := Ingest(a, request, data, parse);
      a'.files - {Digest(data)} == a.files - {Digest(data)} && a'.blobs - {Digest(data)} == a.blobs - {Digest(data)}
    ensures
      other != IngestMessageId(request, Digest(data)) ==>
        var a' := Ingest(a, request, data, parse);
        && (other in a'.messages <==> other in a.messages) &&
          (other in a.messages ==> a'.messages[other] == a.messages[other])
        && (other in a'.bindings <==> other in a.bindings) &&
          (other in a.bindings ==> a'.bindings[other] == a.bindings[other])
  {
  }

  /** What was ingested is admitted again, and ingesting it again changes nothing. */
  lemma {:induction false} IngestTwice(a: Archive, request: Request, data: Bytes, parse: Bytes -> Option<string>)
    requires Admits(a, request, data)
    ensures Admits(Ingest(a, request, data, parse), request, data)
    ensures Ingest(Ingest(a, request, data, parse), request, data, parse) == Ingest(a, request, data, parse)
  {
  }

  /** An ingest is refused exactly when its remote is bound already as other content, or in another role. */
  lemma {:induction false} RefusedIffClaimed(a: Archive, request: Request, data: Bytes, remote: Remote)
    requires request.hint.None? && request.remote == Some(remote)
    ensures
      var own := RemoteBound(request.account, request.localRole, Digest(data), remote.mailbox, remote.uidvalidity,
                   remote.uid);
      !Admits(a, request, data) <==> exists other :: Claims(a, other, remote) && other != own
  {
    if !Admits(a, request, data) {
      var other :| other in a.bindings && other != IngestMessageId(request, Digest(data)) &&
        a.bindings[other].remote == remote;
      assert Claims(a, other, remote);
    }
    forall other | Claims(a, other, remote) && other != IngestMessageId(request, Digest(data))
      ensures BoundElsewhere(a, IngestMessageId(request, Digest(data)), remote)
    {
    }
  }

  predicate Claims(a: Archive, id: MessageId, remote: Remote) {
    id in a.bindings && a.bindings[id].remote == remote
  }

  // ----- local reconciliation -----

  /** First statement of `update_message_state`. */
  function UpdateLocalState(
      a: Archive, account: string, id: MessageId, localRole: string, readState: bool, starred: bool): Result<Archive>
  {
    if id in a.messages && a.messages[id].account == account && !a.messages[id].deleted then
      var row := a.messages[id].(localRole := localRole, readState := readState, starred := starred);
      Ok(a.(messages := a.messages[id := row]))
    else
      Err
  }

  /** Second statement: rebind, which needs the message row and an unclaimed remote, or clear. */
  function UpdateRemoteBinding(a: Archive, id: MessageId, remote: Option<Remote>): Result<Archive> {
    match remote
    case None => Ok(a.(bindings := a.bindings - {id}))
    case Some(remote) =>
      if id in a.messages && !BoundElsewhere(a, id, remote) then
        Ok(a.(bindings := a.bindings[id := Binding(remote, false)]))
      else
        Err
  }

  /** Deleting a message row cascades to its binding. */
  function RemoveEntry(a: Archive, account: string, id: MessageId): Result<Archive> {
    if id in a.messages && a.messages[id].account == account then
      Ok(a.(messages := a.messages - {id}, bindings := a.bindings - {id}))
    else
      Err
  }

  /** The same files and blob rows, and the same message and binding rows but for those of `id`. */
  predicate SameBut(a: Archive, a': Archive, id: MessageId) {
    a'.files == a.files && a'.blobs == a.blobs &&
    a'.messages - {id} == a.messages - {id} && a'.bindings - {id} == a.bindings - {id}
  }

  /** The first statement changes role and flags of one active row of the account, or is an error. */
  lemma {:induction false} LocalStateExactly(
      a: Archive, account: string, id: MessageId, localRole: string, readState: bool, starred: bool)
    ensures
      var r := UpdateLocalState(a, account, id, localRole, readState, starred);
      && (r.Ok? <==> id in a.messages && a.messages[id].account == account && !a.messages[id].deleted)
      && (r.Ok? ==>
            && SameBut(a, r.value, id) && r.value.bindings == a.bindings && id in r.value.messages
            && r.value.messages[id] == Message(account, a.messages[id].content, localRole, readState, starred, false))
  {
  }

  /** The second sets or clears one binding; it fails on a remote that another id claims, or without the row. */
  lemma {:induction false} ReboundExactly(a: Archive, id: MessageId, remote: Option<Remote>)
    ensures
      var r := UpdateRemoteBinding(a, id, remote);
      && (r.Err? <==>
            remote.Some? && (id !in a.messages || exists other :: other != id && Claims(a, other, remote.value)))
      && (r.Ok? ==>
            && SameBut(a, r.value, id) && r.value.messages == a.messages
            && (if remote.None? then id !in r.value.bindings
                else id in r.value.bindings && r.value.bindings[id] == Binding(remote.value, false)))
  {
    if remote.Some? && BoundElsewhere(a, id, remote.value) {
      var other :| other in a.bindings && other != id && a.bindings[other].remote == remote.value;
      assert Claims(a, other, remote.value);
    }
    if remote.Some? {
      if other :| other != id && Claims(a, other, remote.value) {
        assert BoundElsewhere(a, id, remote.value);
      }
    }
  }

  /** Removing takes the row of the account and its binding, deleted or not, and nothing else. */
  lemma {:induction false} RemovedExactly(a: Archive, account: string, id: MessageId)
    ensures
      var r := RemoveEntry(a, account, id);
      && (r.Ok? <==> id in a.messages && a.messages[id].account == account)
      && (r.Ok? ==> SameBut(a, r.value, id) && id !in r.value.messages && id !in r.value.bindings)
  {
  }

  // ----- refreshing flags from a listing -----

  function MarkStaleUidvalidity(a: Archive, account: string, mailbox: string, current: nat): Archive {
    a.(bindings := map id | id in a.bindings ::
      var b := a.bindings[id];
      if b.remote.account == account && b.remote.mailbox == mailbox && b.remote.uidvalidity != current
      then b.(stale := true) else b)
  }

  function UpdateRemoteFlags(a: Archive, remote: Remote, readState: bool, starred: bool): Archive {
    a.(messages := map id | id in a.messages ::
      var m := a.messages[id];
      if !m.deleted && id in a.bindings && a.bindings[id].remote == remote
      then m.(readState := readState, starred := starred) else m)
  }

  // ----- what every operation keeps -----

  /** An id hashed from a binding stays with that binding and that content. */
  predicate IdAgrees(a: Archive, id: MessageId) {
    && (id.RemoteBound? && id in a.messages ==> a.messages[id].content == id.content)
    && (id.Fallback? && id in a.messages ==> a.messages[id].content == id.content && id !in a.bindings)
    && (id.RemoteBound? && id in a.bindings ==>
          var r := a.bindings[id].remote;
          r.mailbox == id.mailbox && r.uidvalidity == id.uidvalidity && r.uid == id.uid)
  }

  /** Whether binding `id` to `remote` agrees with what the id was hashed from. */
  predicate HashedFrom(id: MessageId, remote: Remote) {
    && !id.Fallback?
    && (id.RemoteBound? ==>
          remote.mailbox == id.mailbox && remote.uidvalidity == id.uidvalidity && remote.uid == id.uid)
  }

  ghost predicate Valid(a: Archive, parse: Bytes -> Option<string>) {
    && (forall d :: d in a.blobs ==> a.blobs[d] == parse(d.data))
    && (forall id :: id in a.messages ==> a.messages[id].content in a.blobs)
    && a.bindings.Keys <= a.messages.Keys
    && (forall x, y :: x in a.bindings && y in a.bindings && a.bindings[x].remote == a.bindings[y].remote ==> x == y)
    && (forall id :: IdAgrees(a, id))
  }

  lemma EmptyIsValid(parse: Bytes -> Option<string>)
    ensures Valid(EMPTY, parse)
  {
  }

  lemma {:induction false} IngestKeepsValid(a: Archive, request: Request, data: Bytes, parse: Bytes -> Option<string>)
    requires Valid(a, parse)
    ensures Valid(Ingest(a, request, data, parse), parse)
  {
    var a' := Ingest(a, request, data, parse);
    var id := IngestMessageId(request, Digest(data));
    if Admits(a, request, data) {
      forall x, y | x in a'.bindings && y in a'.bindings && a'.bindings[x].remote == a'.bindings[y].remote
        ensures x == y
      {
        assert x != id ==> x in a.bindings && a.bindings[x] == a'.bindings[x];
        assert y != id ==> y in a.bindings && a.bindings[y] == a'.bindings[y];
      }
      forall other
        ensures IdAgrees(a', other)
      {
        assert IdAgrees(a, other);
      }
    } else {
      forall other
        ensures IdAgrees(a', other)
      {
        assert IdAgrees(a, other);
      }
    }
  }

  /** Rebinding an id to the remote it was hashed from, or clearing it, keeps the tables valid. */
  lemma {:induction false} RebindKeepsValid(
      a: Archive, id: MessageId, remote: Option<Remote>, parse: Bytes -> Option<string>)
    requires Valid(a, parse)
    requires remote.Some? ==> HashedFrom(id, remote.value)
    ensures UpdateRemoteBinding(a, id, remote).Ok? ==> Valid(UpdateRemoteBinding(a, id, remote).value, parse)
  {
    if UpdateRemoteBinding(a, id, remote).Ok? {
      var a' := UpdateRemoteBinding(a, id, remote).value;
      forall other
        ensures IdAgrees(a', other)
      {
        assert IdAgrees(a, other);
      }
      forall x, y | x in a'.bindings && y in a'.bindings && a'.bindings[x].remote == a'.bindings[y].remote
        ensures x == y
      {
        assert x != id ==> x in a.bindings && a.bindings[x] == a'.bindings[x];
        assert y != id ==> y in a.bindings && a.bindings[y] == a'.bindings[y];
      }
    }
  }

  lemma {:induction false} LocalStateKeepsValid(
      a: Archive, account: string, id: MessageId, role: string, readState: bool, starred: bool,
      parse: Bytes -> Option<string>)
    requires Valid(a, parse)
    ensures UpdateLocalState(a, account, id, role, readState, starred).Ok? ==>
              Valid(UpdateLocalState(a, account, id, role, readState, starred).value, parse)
  {
    var r := UpdateLocalState(a, account, id, role, readState, starred);
    if r.Ok? {
      forall other
        ensures IdAgrees(r.value, other)
      {
        assert IdAgrees(a, other);
      }
    }
  }

  /** The cascade is what keeps a binding from outliving its message. */
  lemma {:induction false} RemoveKeepsValid(a: Archive, account: string, id: MessageId, parse: Bytes -> Option<string>)
    requires Valid(a, parse)
    ensures RemoveEntry(a, account, id).Ok? ==> Valid(RemoveEntry(a, account, id).value, parse)
  {
    var r := RemoveEntry(a, account, id);
    if r.Ok? {
      forall other
        ensures IdAgrees(r.value, other)
      {
        assert IdAgrees(a, other);
      }
    }
  }

  // ----- the store, changed in place -----

  class Store {
    var archive: Archive

    constructor ()
      ensures archive == EMPTY
    {
      archive := EMPTY;
    }

    /**
     Ingests one message. Writing the blob file may fail; after it is written
     the process may die before the transaction commits, and a refused binding
     rolls it back.
     */
    method IngestMessage(request: Request, data: Bytes, parse: Bytes -> Option<string>, uninterrupted: bool)
      returns (r: Result<MessageId>)
      requires Valid(archive, parse)
      modifies this
      ensures Valid(archive, parse)
      ensures r.Ok? ==> Admits(old(archive), request, data) && r.value == IngestMessageId(request, Digest(data))
      ensures r.Ok? ==> archive == Ingest(old(archive), request, data, parse)
      ensures r.Err? ==> archive == old(archive) || archive == WithBlob(old(archive), data)
      ensures uninterrupted ==> (r.Ok? <==> Admits(old(archive), request, data))
    {
      IngestKeepsValid(archive, request, data, parse);
      var content := Digest(data);
      if content !in archive.files || archive.files[content] != data {
        var unwritten := Fails(uninterrupted);
        if unwritten {
          return Err;
        }
        archive := archive.(files := archive.files[content := data]);
      }
      assert archive.files == old(archive).files[content := data];
      var id := IngestMessageId(request, content);
      assert forall other :: IdAgrees(old(archive), other) ==> IdAgrees(archive, other);
      var died := Fails(uninterrupted);
      if died {
        return Err;
      }
      var blobs := archive.blobs[content := parse(data)];
      var messages := UpsertMessage(archive, request, id, content);
      var bindings := archive.bindings;
      if request.remote.Some? {
        if BoundElsewhere(archive, id, request.remote.value) {
          return Err;
        }
        bindings := bindings[id := Binding(request.remote.value, false)];
      }
      archive := Archive(archive.files, blobs, messages, bindings);
      return Ok(id);
    }

    /**
     The two statements of `update_message_state`; the second may never run.
     Callers clear the binding or keep the one the message has.
     */
    method UpdateMessageState(
        account: string, id: MessageId, role: string, readState: bool, starred: bool, remote: Option<Remote>,
        uninterrupted: bool)
      returns (r: Result<()>)
      modifies this
      ensures remote.None? || HashedFrom(id, remote.value) ==>
                forall parse :: Valid(old(archive), parse) ==> Valid(archive, parse)
      ensures UpdateLocalState(old(archive), account, id, role, readState, starred).Err? ==>
                r.Err? && archive == old(archive)
      ensures r.Ok? ==>
                var first := UpdateLocalState(old(archive), account, id, role, readState, starred);
                first.Ok? && UpdateRemoteBinding(first.value, id, remote) == Ok(archive)
      ensures r.Err? ==>
                archive == old(archive) ||
                UpdateLocalState(old(archive), account, id, role, readState, starred) == Ok(archive)
      ensures uninterrupted ==>
                var first := UpdateLocalState(old(archive), account, id, role, readState, starred);
                r.Ok? <==> first.Ok? && UpdateRemoteBinding(first.value, id, remote).Ok?
    {
      var first := UpdateLocalState(archive, account, id, role, readState, starred);
      if first.Err? {
        return Err;
      }
      forall parse | Valid(archive, parse)
        ensures Valid(first.value, parse)
      {
        LocalStateKeepsValid(archive, account, id, role, readState, starred, parse);
      }
      archive := first.value;
      var died := Fails(uninterrupted);
      if died {
        return Err;
      }
      var second := UpdateRemoteBinding(archive, id, remote);
      if second.Err? {
        return Err;
      }
      forall parse | Valid(archive, parse) && (remote.None? || HashedFrom(id, remote.value))
        ensures Valid(second.value, parse)
      {
        RebindKeepsValid(archive, id, remote, parse);
      }
      archive := second.value;
      return Ok(());
    }
  }
}
