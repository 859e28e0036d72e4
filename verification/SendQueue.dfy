/**
 The durable send queue: one JSON file per item, rewritten in place by
 open-with-truncate, and the order "record intent, call the transport, record
 the outcome" of a queued send.

 `Step` lists the durable effects of the queue commands, one effect a step.
 Commands run one at a time; a crash may fall between any two steps, and a
 write may leave the file it was rewriting torn.
 */
module SendQueue {
  import opened Basics
  import Ordering

  datatype Status = Pending | Sending | Executed | Failed | Dropped {
    predicate BlocksResend() {
      Sending? || Executed?
    }
  }

  /** The normalized Message-ID of the message, or the hash of its bytes if it has none. */
  datatype Key = MsgId(id: string) | Sha256(data: Bytes)

  /** Only a queued `Send` reaches the transport; the other operations are one case here. */
  datatype Command = Send(path: string) | Other(operation: string)

  datatype Item = Item(id: string, createdAt: string, status: Status, command: Command, sendMessageId: Option<Key>) {
    function Marked(status': Status): Item {
      this.(status := status')
    }

    function WithKey(key: Key): Item {
      this.(sendMessageId := Some(key))
    }
  }

  /** A file cut short by a crash does not parse. */
  datatype File = Torn | Valid(item: Item)

  datatype Attempt = Attempt(id: string, key: Key)

  /** What the running process has done since its last durable intent. */
  datatype Control = Idle | Intended(attempt: Attempt) | Transmitted(attempt: Attempt)

  /** `sent` logs every call of the transport, oldest first. */
  datatype State = State(files: map<string, File>, sent: seq<Attempt>, control: Control)

  const INITIAL := State(map[], [], Idle)

  function SendDedupeKey(data: Bytes, parse: Bytes -> Option<string>): Key {
    match parse(data)
    case Some(id) => MsgId(id)
    case None => Sha256(data)
  }

  /** Messages share a key exactly when they have one Message-ID, or neither has one and they are the same bytes. */
  lemma {:induction false} SameKeyIff(data: Bytes, data': Bytes, parse: Bytes -> Option<string>)
    ensures SendDedupeKey(data, parse) == SendDedupeKey(data', parse) <==>
              parse(data) == parse(data') && (parse(data).None? ==> data == data')
  {
  }

  /** The message a key stands for. */
  predicate StandsFor(key: Key, data: Bytes, parse: Bytes -> Option<string>) {
    match key
    case MsgId(id) => parse(data) == Some(id)
    case Sha256(bytes) => parse(data) == None && bytes == data
  }

  /** A file that records the very message as sending or executed. */
  predicate Carries(file: File, data: Bytes, parse: Bytes -> Option<string>) {
    && file.Valid? && (file.item.status == Sending || file.item.status == Executed)
    && file.item.sendMessageId.Some? && StandsFor(file.item.sendMessageId.value, data, parse)
  }

  predicate CarriedElsewhere(files: map<string, File>, id: string, data: Bytes, parse: Bytes -> Option<string>) {
    exists other :: other in files && other != id && Carries(files[other], data, parse)
  }

  lemma {:induction false} AttemptedIffCarried(
      files: map<string, File>, id: string, data: Bytes, parse: Bytes -> Option<string>)
    requires forall other :: other in files && files[other].Valid? ==> files[other].item.id == other
    ensures AlreadyAttempted(files, SendDedupeKey(data, parse), id) <==> CarriedElsewhere(files, id, data, parse)
  {
    if other :| other in files && BlockedBy(files, other, SendDedupeKey(data, parse), id) {
      assert Carries(files[other], data, parse);
    }
    if other :| other in files && other != id && Carries(files[other], data, parse) {
      assert BlockedBy(files, other, SendDedupeKey(data, parse), id);
    }
  }

  /** `list` fails on the first file that does not parse. */
  predicate AllParse(files: map<string, File>) {
    forall id :: id in files ==> files[id].Valid?
  }

  predicate BlockedBy(files: map<string, File>, id: string, key: Key, except: string)
    requires id in files
  {
    && files[id].Valid?
    && files[id].item.id != except
    && files[id].item.sendMessageId == Some(key)
    && files[id].item.status.BlocksResend()
  }

  predicate AlreadyAttempted(files: map<string, File>, key: Key, except: string) {
    exists id :: id in files && BlockedBy(files, id, key, except)
  }

  predicate IsPending(files: map<string, File>, id: string) {
    id in files && files[id].Valid? && files[id].item.status == Pending
  }

  /** Writing `item` either completes or leaves its file torn. */
  ghost predicate Writes(s: State, item: Item, s': State, done: Control) {
    || s' == s.(files := s.files[item.id := Torn], control := Idle)
    || s' == s.(files := s.files[item.id := Valid(item)], control := done)
  }

  datatype Action =
    | Enqueue(item: Item)
    | Drop(id: string)
    | RunOther(id: string, outcome: Status)
    | Refuse(id: string)
    | SkipSent(id: string, key: Key)
    | Intend(id: string, key: Key)
    | Abort
    | Transmit
    | Record(outcome: Status)
    | Crash

  ghost predicate Step(s: State, a: Action, s': State) {
    match a
    case Enqueue(item) =>
      s.control == Idle && item.id !in s.files && item.status == Pending && item.sendMessageId == None &&
      Writes(s, item, s', Idle)
    case Drop(id) =>
      s.control == Idle && id in s.files && s.files[id].Valid? &&
      Writes(s, s.files[id].item.Marked(Dropped), s', Idle)
    case RunOther(id, outcome) =>
      s.control == Idle && IsPending(s.files, id) && s.files[id].item.command.Other? &&
      (outcome == Executed || outcome == Failed) &&
      Writes(s, s.files[id].item.Marked(outcome), s', Idle)
    case Refuse(id) =>
      s.control == Idle && IsPending(s.files, id) && s.files[id].item.command.Send? &&
      Writes(s, s.files[id].item.Marked(Failed), s', Idle)
    case SkipSent(id, key) =>
      s.control == Idle && IsPending(s.files, id) && s.files[id].item.command.Send? &&
      AllParse(s.files) && AlreadyAttempted(s.files, key, id) &&
      Writes(s, s.files[id].item.WithKey(key).Marked(Executed), s', Idle)
    case Intend(id, key) =>
      s.control == Idle && IsPending(s.files, id) && s.files[id].item.command.Send? &&
      AllParse(s.files) && !AlreadyAttempted(s.files, key, id) &&
      Writes(s, s.files[id].item.WithKey(key).Marked(Sending), s', Intended(Attempt(id, key)))
    case Abort =>
      s.control.Intended? && s.control.attempt.id in s.files && s.files[s.control.attempt.id].Valid? &&
      Writes(s, s.files[s.control.attempt.id].item.Marked(Failed), s', Idle)
    case Transmit =>
      s.control.Intended? && s' == s.(sent := s.sent + [s.control.attempt], control := Transmitted(s.control.attempt))
    case Record(outcome) =>
      s.control.Transmitted? && s.control.attempt.id in s.files && s.files[s.control.attempt.id].Valid? &&
      (outcome == Executed || outcome == Failed) &&
      Writes(s, s.files[s.control.attempt.id].item.Marked(outcome), s', Idle)
    case Crash =>
      s' == s.(control := Idle)
  }

  ghost predicate Next(s: State, s': State) {
    exists a :: Step(s, a, s')
  }

  ghost predicate IsRun(run: seq<State>) {
    && run != []
    && run[0] == INITIAL
    && forall i :: 0 <= i < |run| - 1 ==> Next(run[i], run[i + 1])
  }

  // ----- the invariant -----

  /** A record of a transport call: the file is torn, or carries the key and is no longer pending. */
  predicate Recorded(file: File, key: Key) {
    file.Torn? || (file.item.sendMessageId == Some(key) && file.item.status != Pending)
  }

  ghost predicate Inv(s: State) {
    && (forall id :: id in s.files && s.files[id].Valid? ==> s.files[id].item.id == id)
    && (forall a :: a in s.sent ==> a.id in s.files && Recorded(s.files[a.id], a.key))
    && (forall i, j :: 0 <= i < j < |s.sent| ==> s.sent[i].id != s.sent[j].id)
    && (s.control != Idle ==> AllParse(s.files) && InFlight(s.files, s.control.attempt))
    && (s.control.Intended? ==> forall a :: a in s.sent ==> a.id != s.control.attempt.id)
    && (s.control.Intended? ==> Superseded(s, s.control.attempt.key))
  }

  /** The item between its intent and its outcome is recorded as `Sending` under its key. */
  predicate InFlight(files: map<string, File>, attempt: Attempt) {
    && attempt.id in files
    && files[attempt.id].Valid?
    && files[attempt.id].item.status == Sending
    && files[attempt.id].item.sendMessageId == Some(attempt.key)
  }

  /** Every item sent so far under `key` is recorded as failed or dropped. */
  ghost predicate Superseded(s: State, key: Key) {
    forall a :: a in s.sent && a.key == key ==>
      a.id in s.files && s.files[a.id].Valid? && s.files[a.id].item.status in {Failed, Dropped}
  }

  lemma InvInitial()
    ensures Inv(INITIAL)
  {
  }

  lemma InvStep(s: State, a: Action, s': State)
    requires Inv(s) && Step(s, a, s')
    ensures Inv(s')
  {
    match a {
      case Intend(id, key) =>
        if s'.control.Intended? {
          forall b | b in s.sent
            ensures b.id != id
            ensures b.key == key ==> s.files[b.id].item.status in {Failed, Dropped}
          {
            assert Recorded(s.files[b.id], b.key);
            if b.key == key && s.files[b.id].item.status.BlocksResend() {
              assert BlockedBy(s.files, b.id, key, id);
            }
          }
        }
      case _ =>
    }
  }

  lemma {:induction false} RunsKeepInv(run: seq<State>, i: nat)
    requires IsRun(run) && i < |run|
    ensures Inv(run[i])
  {
    if i == 0 {
      InvInitial();
    } else {
      RunsKeepInv(run, i - 1);
      assert Next(run[i - 1], run[i - 1 + 1]);
      var a :| Step(run[i - 1], a, run[i]);
      InvStep(run[i - 1], a, run[i]);
    }
  }

  // ----- theorems over every run -----

  lemma {:induction false} StepGrowsSent(s: State, a: Action, s': State)
    requires Inv(s) && Step(s, a, s')
    ensures s'.sent == s.sent || (a.Transmit? && s'.sent == s.sent + [s.control.attempt])
    ensures !AllParse(s.files) ==> !AllParse(s'.files) && s'.sent == s.sent
  {
    if !AllParse(s.files) {
      var torn :| torn in s.files && !s.files[torn].Valid?;
      assert torn in s'.files && !s'.files[torn].Valid?;
    }
  }

  /** No item reaches the transport twice, whatever crashed in between. */
  lemma {:induction false} EachItemIsSentAtMostOnce(run: seq<State>, i: nat, m: nat, n: nat)
    requires IsRun(run) && i < |run|
    requires m < n < |run[i].sent|
    ensures run[i].sent[m].id != run[i].sent[n].id
  {
    RunsKeepInv(run, i);
  }

  /**
   A transport call is for an item never sent before, and every earlier item
   sent under the same key is by then recorded as failed or dropped.
   */
  lemma {:induction false} ResendOnlyAfterFailureOrDrop(run: seq<State>, i: nat)
    requires IsRun(run) && i + 1 < |run|
    requires run[i + 1].sent != run[i].sent
    ensures exists a ::
              && run[i + 1].sent == run[i].sent + [a]
              && (forall b :: b in run[i].sent ==> b.id != a.id)
              && Superseded(run[i], a.key)
  {
    RunsKeepInv(run, i);
    assert Next(run[i], run[i + 1]);
    var a :| Step(run[i], a, run[i + 1]);
    StepGrowsSent(run[i], a, run[i + 1]);
    assert run[i + 1].sent == run[i].sent + [run[i].control.attempt];
  }

  /** Once a queue file is torn no queued send ever reaches the transport again. */
  lemma {:induction false} TornFileStopsAllSends(run: seq<State>, i: nat, j: nat)
    requires IsRun(run) && i <= j < |run|
    requires !AllParse(run[i].files)
    ensures run[j].sent == run[i].sent && !AllParse(run[j].files)
  {
    if i < j {
      TornFileStopsAllSends(run, i, j - 1);
      RunsKeepInv(run, j - 1);
      assert Next(run[j - 1], run[j - 1 + 1]);
      var a :| Step(run[j - 1], a, run[j]);
      StepGrowsSent(run[j - 1], a, run[j]);
    }
  }

  lemma {:induction false} SentItemsNeverReturnToPending(run: seq<State>, i: nat, a: Attempt)
    requires IsRun(run) && i < |run| && a in run[i].sent
    ensures a.id in run[i].files && !IsPending(run[i].files, a.id)
  {
    RunsKeepInv(run, i);
  }

  // ----- what "executed" says about delivery -----

  predicate HasKey(sent: seq<Attempt>, key: Key) {
    exists i :: 0 <= i < |sent| && sent[i].key == key
  }

  /** A crash falls between the recorded intent and the transport call or failure that follows it. */
  ghost predicate LosesIntent(s: State, s': State) {
    s.control.Intended? && s'.sent == s.sent && s'.files == s.files
  }

  ghost predicate KeepsIntent(s: State, s': State) {
    s.control.Intended? && !HasKey(s.sent, s.control.attempt.key) ==> !LosesIntent(s, s')
  }

  /** Every intent under a key not yet transmitted survives to its transport call or its failure. */
  ghost predicate KeepsIntents(run: seq<State>) {
    forall i :: 0 <= i < |run| - 1 ==> KeepsIntent(run[i], run[i + 1])
  }

  /** An item recorded as executed or sending under a key has that key transmitted, or about to be. */
  ghost predicate ClaimsBacked(s: State) {
    forall id :: id in s.files && s.files[id].Valid? ==> ClaimBacked(s, id, s.files[id].item)
  }

  predicate ClaimBacked(s: State, id: string, item: Item) {
    && (item.status == Pending ==> item.sendMessageId == None)
    && (item.sendMessageId.Some? && item.status.BlocksResend() ==>
          HasKey(s.sent, item.sendMessageId.value) || s.control == Intended(Attempt(id, item.sendMessageId.value)))
  }

  lemma {:induction false} SentStays(s: State, a: Action, s': State, key: Key)
    requires Step(s, a, s') && HasKey(s.sent, key)
    ensures HasKey(s'.sent, key)
  {
    var i :| 0 <= i < |s.sent| && s.sent[i].key == key;
    assert s'.sent[i] == s.sent[i];
  }

  /** An intent in flight is transmitted, abandoned as failed, or lost to a crash. */
  lemma {:induction false} IntentEnds(s: State, a: Action, s': State)
    requires Inv(s) && s.control.Intended? && Step(s, a, s')
    ensures LosesIntent(s, s') || HasKey(s'.sent, s.control.attempt.key)
            || (a.Abort? && s'.sent == s.sent && !AlreadySending(s', s.control.attempt.id))
  {
    if a.Transmit? {
      assert s'.sent[|s.sent|] == s.control.attempt;
    }
  }

  predicate AlreadySending(s: State, id: string) {
    id in s.files && s.files[id].Valid? && s.files[id].item.status.BlocksResend()
  }

  lemma {:induction false} WriteKeepsClaims(s: State, a: Action, s': State, id: string)
    requires Inv(s) && ClaimsBacked(s) && Step(s, a, s') && !s.control.Intended?
    requires id in s'.files && s'.files[id].Valid?
    ensures ClaimBacked(s', id, s'.files[id].item)
  {
    var item := s'.files[id].item;
    if id in s.files && s.files[id].Valid? {
      assert ClaimBacked(s, id, s.files[id].item);
    }
    if a.SkipSent? && id == a.id && item.status == Executed {
      var other :| other in s.files && BlockedBy(s.files, other, a.key, a.id);
      assert ClaimBacked(s, other, s.files[other].item);
    }
    if a.Record? && id == s.control.attempt.id {
      assert InFlight(s.files, s.control.attempt);
    }
    if item.sendMessageId.Some? && HasKey(s.sent, item.sendMessageId.value) {
      SentStays(s, a, s', item.sendMessageId.value);
    }
  }

  lemma {:induction false} StepKeepsClaims(s: State, a: Action, s': State)
    requires Inv(s) && Inv(s') && ClaimsBacked(s) && Step(s, a, s')
    requires KeepsIntent(s, s')
    ensures ClaimsBacked(s')
  {
    forall id | id in s'.files && s'.files[id].Valid?
      ensures ClaimBacked(s', id, s'.files[id].item)
    {
      if s.control.Intended? {
        IntentEnds(s, a, s');
        if id in s.files && s.files[id].Valid? {
          assert ClaimBacked(s, id, s.files[id].item);
          var key := s.files[id].item.sendMessageId;
          if key.Some? && HasKey(s.sent, key.value) {
            SentStays(s, a, s', key.value);
          }
        }
      } else {
        WriteKeepsClaims(s, a, s', id);
      }
    }
  }

  lemma {:induction false} ExecutedMeansTransmitted(run: seq<State>, i: nat)
    requires IsRun(run) && KeepsIntents(run) && i < |run|
    ensures ClaimsBacked(run[i])
  {
    if i > 0 {
      ExecutedMeansTransmitted(run, i - 1);
      RunsKeepInv(run, i - 1);
      RunsKeepInv(run, i);
      assert Next(run[i - 1], run[i - 1 + 1]);
      assert KeepsIntent(run[i - 1], run[i - 1 + 1]);
      NextKeepsClaims(run[i - 1], run[i]);
    }
  }

  lemma {:induction false} NextKeepsClaims(s: State, s': State)
    requires Inv(s) && Inv(s') && ClaimsBacked(s) && Next(s, s') && KeepsIntent(s, s')
    ensures ClaimsBacked(s')
  {
    var a :| Step(s, a, s');
    StepKeepsClaims(s, a, s');
  }

  /**
   "Executed" and "sending" stand for a transmission throughout a run exactly
   when no crash in it separates the intent of a key never yet transmitted
   from the transport call.
   */
  lemma {:induction false} ClaimsBackedIffIntentsKept(run: seq<State>)
    requires IsRun(run)
    ensures (forall i :: 0 <= i < |run| ==> ClaimsBacked(run[i])) <==> KeepsIntents(run)
  {
    if KeepsIntents(run) {
      forall i | 0 <= i < |run|
        ensures ClaimsBacked(run[i])
      {
        ExecutedMeansTransmitted(run, i);
      }
    } else {
      var i :| 0 <= i < |run| - 1 && !KeepsIntent(run[i], run[i + 1]);
      RunsKeepInv(run, i);
      assert Next(run[i], run[i + 1]);
      assert !ClaimsBacked(run[i + 1]);
    }
  }

  lemma {:induction false} RunExtends(run: seq<State>, a: Action, s': State)
    requires IsRun(run) && Step(run[|run| - 1], a, s')
    ensures IsRun(run + [s']) && (run + [s'])[|run + [s']| - 1] == s'
  {
    var longer := run + [s'];
    forall i | 0 <= i < |longer| - 1
      ensures Next(longer[i], longer[i + 1])
    {
      if i < |run| - 1 {
        assert longer[i] == run[i] && longer[i + 1] == run[i + 1];
      } else {
        assert Next(longer[i], longer[i + 1]);
      }
    }
  }

  function LostIntent(key: Key): State {
    State(map["a" := Valid(Item("a", "", Sending, Send("a.eml"), Some(key)))], [], Idle)
  }

  /** The process dies between the intent of item "a" and its transport call. */
  lemma {:induction false} IntentCanBeLost(key: Key)
    ensures exists run: seq<State> ::
              IsRun(run) && run[|run| - 1] == LostIntent(key)
  {
    var a := Item("a", "", Pending, Send("a.eml"), None);
    var intended := Item("a", "", Sending, Send("a.eml"), Some(key));
    var queued := State(map["a" := Valid(a)], [], Idle);
    var recorded := State(map["a" := Valid(intended)], [], Intended(Attempt("a", key)));
    assert IsRun([INITIAL]);
    RunExtends([INITIAL], Enqueue(a), queued);
    assert recorded.files == queued.files["a" := Valid(intended)];
    RunExtends([INITIAL] + [queued], Intend("a", key), recorded);
    RunExtends([INITIAL] + [queued] + [recorded], Crash, recorded.(control := Idle));
  }

  /** Item "b", with the same message, is then recorded as executed although nothing was ever transmitted. */
  lemma {:induction false} ExecutedItemMayNeverHaveBeenTransmitted(key: Key)
    ensures exists run: seq<State> ::
              && IsRun(run)
              && run[|run| - 1].sent == []
              && "b" in run[|run| - 1].files
              && run[|run| - 1].files["b"] == Valid(Item("b", "", Executed, Send("b.eml"), Some(key)))
  {
    IntentCanBeLost(key);
    var lost := LostIntent(key);
    var run :| IsRun(run) && run[|run| - 1] == lost;
    var b := Item("b", "", Pending, Send("b.eml"), None);
    assert "a" != "b" by { assert "a"[0] != "b"[0]; }
    var queued := lost.(files := lost.files["b" := Valid(b)]);
    RunExtends(run, Enqueue(b), queued);
    assert BlockedBy(queued.files, "a", key, "b");
    RunExtends(run + [queued], SkipSent("b", key),
      queued.(files := queued.files["b" := Valid(b.(sendMessageId := Some(key)).Marked(Executed))]));
  }

  // ----- the commands -----

  ghost predicate OthersKept(before: map<string, File>, after: map<string, File>, id: string) {
    && before.Keys <= after.Keys <= before.Keys + {id}
    && forall other :: other in before && other != id ==> after[other] == before[other]
  }

  /** By creation time, and among equal times by id. */
  predicate OldestFirst(items: seq<Item>) {
    forall i, j :: 0 <= i < j < |items| ==>
      && !Ordering.Less(items[j].createdAt, items[i].createdAt)
      && (items[i].createdAt == items[j].createdAt ==> Ordering.Less(items[i].id, items[j].id))
  }

  lemma {:induction false} SortedIsOldestFirst(items: seq<Item>)
    requires Ordering.SortedBy(items, StampOf)
    ensures OldestFirst(items)
  {
    forall i, j | 0 <= i < j < |items|
      ensures !Ordering.Less(items[j].createdAt, items[i].createdAt)
      ensures items[i].createdAt == items[j].createdAt ==> Ordering.Less(items[i].id, items[j].id)
    {
      Ordering.BeforeIff(StampOf(items[i]), StampOf(items[j]));
    }
  }

  function StampOf(item: Item): Ordering.Stamp {
    Ordering.Stamp(item.createdAt, item.id)
  }

  /** An item of one of the files named, pending unless all are asked for. */
  ghost predicate Listed(files: map<string, File>, ids: set<string>, includeAll: bool, item: Item) {
    exists id :: id in ids && HoldsItem(files, id, item) && (includeAll || item.status == Pending)
  }

  predicate HoldsItem(files: map<string, File>, id: string, item: Item) {
    id in files && files[id] == Valid(item)
  }

  lemma {:induction false} OneMoreListed(files: map<string, File>, unread: set<string>, id: string, includeAll: bool)
    requires id in unread && unread <= files.Keys && files[id].Valid?
    ensures forall item :: Listed(files, files.Keys - (unread - {id}), includeAll, item) <==>
              Listed(files, files.Keys - unread, includeAll, item) ||
              (item == files[id].item && (includeAll || item.status == Pending))
  {
    assert files.Keys - (unread - {id}) == (files.Keys - unread) + {id};
    assert HoldsItem(files, id, files[id].item);
  }

  function IdsOf(items: seq<Item>): (ids: seq<string>)
    ensures |ids| == |items| && forall i :: 0 <= i < |items| ==> ids[i] == items[i].id
  {
    seq(|items|, i requires 0 <= i < |items| => items[i].id)
  }

  lemma {:induction false} PendingIdsAre(files: map<string, File>, items: seq<Item>)
    requires forall id :: id in files && files[id].Valid? ==> files[id].item.id == id
    requires forall item :: item in items <==> Listed(files, files.Keys, false, item)
    ensures forall id :: id in IdsOf(items) <==> IsPending(files, id)
  {
    forall id | id in IdsOf(items)
      ensures IsPending(files, id)
    {
      var i :| 0 <= i < |items| && IdsOf(items)[i] == id;
      assert items[i] in items;
    }
    forall id | IsPending(files, id)
      ensures id in IdsOf(items)
    {
      assert HoldsItem(files, id, files[id].item);
      assert files[id].item in items;
      var i :| 0 <= i < |items| && items[i] == files[id].item;
      assert IdsOf(items)[i] == id;
    }
  }

  /** Writing `item` changed nothing, or left its file torn, or wrote it. */
  predicate RecordedOrNot(before: map<string, File>, after: map<string, File>, item: Item) {
    || after == before
    || after == before[item.id := Torn]
    || after == before[item.id := Valid(item)]
  }

  /** The item was pending and ended executed, or it was being sent already and stays so. */
  predicate RanOrSending(before: map<string, File>, after: map<string, File>, id: string) {
    && id in before && id in after && before[id].Valid? && after[id].Valid?
    && (|| (before[id].item.status == Pending && after[id].item.status == Executed)
        || (before[id].item.status == Sending && after[id] == before[id]))
  }

  /** The first i of `ids` have run, and no other file has changed. */
  ghost predicate InTurn(before: map<string, File>, now: map<string, File>, ids: seq<string>, i: nat)
    requires i <= |ids|
  {
    && (forall k :: 0 <= k < i ==> RanOrSending(before, now, ids[k]))
    && forall id :: id in now && id !in ids[..i] ==> id in before && now[id] == before[id]
  }

  /** What completing one item leaves of its file. */
  predicate OneRan(before: map<string, File>, now: map<string, File>, id: string) {
    if IsPending(before, id) then id in now && now[id].Valid? && now[id].item.status == Executed
    else now == before && id in now && now[id].Valid? && now[id].item.status == Sending
  }

  lemma {:induction false} OneMoreRan(
      before: map<string, File>, was: map<string, File>, now: map<string, File>, ids: seq<string>, i: nat)
    requires i < |ids| && InTurn(before, was, ids, i)
    requires OthersKept(was, now, ids[i]) && OneRan(was, now, ids[i])
    ensures InTurn(before, now, ids, i + 1)
  {
    assert ids[..i + 1] == ids[..i] + [ids[i]];
    if ids[i] in ids[..i] {
      var k :| 0 <= k < i && ids[k] == ids[i];
      assert RanOrSending(before, was, ids[k]);
    }
  }

  /** What `run_queued_send` checks before it records its intent. */
  predicate MayTransmit(files: map<string, File>, item: Item, key: Key) {
    AllParse(files) && !AlreadyAttempted(files, key, item.id)
  }

  /**
   Whether the message could be prepared again for the transport (its file
   read, its sender replaced), and whether the transport and the storing of
   the sent copy both succeeded.
   */
  datatype Delivery = Unprepared | Rejected | Accepted

  datatype Outcome = Completed | Failure | Crashed

  /** What running an item meets: the policy's verdict, the bytes of the .eml file, the transport, another command. */
  datatype Circumstances = Circumstances(
    authorized: bool, data: Option<Bytes>, delivery: Delivery, commandSucceeds: bool)

  /** Whether an item completes if nothing interrupts it. */
  predicate Succeeds(files: map<string, File>, id: string, parse: Bytes -> Option<string>, c: Circumstances) {
    && id in files && files[id].Valid?
    && match files[id].item.status
       case Sending => true
       case Pending =>
         if files[id].item.command.Other? then c.commandSucceeds
         else
           && c.authorized && c.data.Some? && AllParse(files)
           && (CarriedElsewhere(files, id, c.data.value, parse) || c.delivery == Accepted)
       case _ => false
  }

  /** The first i items completed, and the next one then could not. */
  ghost predicate StoppedAt(
      before: map<string, File>, was: map<string, File>, ids: seq<string>, i: nat, parse: Bytes -> Option<string>,
      around: string -> Circumstances)
  {
    i < |ids| && InTurn(before, was, ids, i) && !Succeeds(was, ids[i], parse, around(ids[i]))
  }

  /** The queue directory and the transport, changed by the commands in place. */
  class Queue {
    var files: map<string, File>
    var sent: seq<Attempt>
    /** What the running command has done since its last durable intent. */
    ghost var control: Control
    /** Every durable state the queue has been in. */
    ghost var trace: seq<State>

    ghost function Now(): State
      reads this
    {
      State(files, sent, control)
    }

    ghost predicate Valid()
      reads this
    {
      IsRun(trace) && trace[|trace| - 1] == Now() && Inv(Now())
    }

    ghost predicate AtRest()
      reads this
    {
      Valid() && control == Idle
    }

    constructor ()
      ensures AtRest() && files == map[] && sent == []
    {
      files, sent, control := map[], [], Idle;
      trace := [INITIAL];
    }

    /** Appends the current state to the trace, as the result of `a`. */
    ghost method Log(a: Action, before: State)
      requires IsRun(trace) && trace[|trace| - 1] == before && Inv(before)
      requires Step(before, a, Now())
      modifies this`trace
      ensures Valid() && old(trace) <= trace
    {
      InvStep(before, a, Now());
      assert Next(before, Now());
      trace := trace + [Now()];
    }

    /** Open-with-truncate, write, sync; the process may fail or die before, amid or after. */
    method WriteItem(item: Item, ghost a: Action, ghost done: Control, uninterrupted: bool) returns (outcome: Outcome)
      requires Valid()
      requires Step(Now(), a, State(files[item.id := Torn], sent, Idle))
      requires Step(Now(), a, State(files[item.id := File.Valid(item)], sent, done))
      modifies this
      ensures Valid() && old(trace) <= trace && sent == old(sent)
      ensures outcome == Completed ==> files == old(files)[item.id := File.Valid(item)] && control == done
      ensures outcome != Completed ==> control == Idle
      ensures RecordedOrNot(old(files), files, item)
      ensures uninterrupted ==> outcome == Completed
    {
      var unopened := Fails(uninterrupted);
      if unopened {
        outcome := Stopped();
        return;
      }
      ghost var before := Now();
      var cut := Fails(uninterrupted);
      if cut {
        files, control := files[item.id := Torn], Idle;
        Log(a, before);
        outcome := Stopped();
        return;
      }
      files, control := files[item.id := File.Valid(item)], done;
      Log(a, before);
      var unsynced := Fails(uninterrupted);
      if unsynced {
        outcome := Stopped();
        return;
      }
      return Completed;
    }

    /** The command reports an error, or the process dies. */
    method Stopped() returns (outcome: Outcome)
      requires Valid()
      modifies this`control, this`trace
      ensures AtRest() && old(trace) <= trace
      ensures outcome != Completed
    {
      ghost var before := Now();
      control := Idle;
      Log(Crash, before);
      if * {
        return Failure;
      }
      return Crashed;
    }

    method Load(id: string) returns (r: Result<Item>)
      ensures r.Ok? <==> id in files && files[id].Valid?
      ensures r.Ok? ==> files[id] == File.Valid(r.value)
    {
      if id in files && files[id].Valid? {
        return Ok(files[id].item);
      }
      return Err;
    }

    /** The items on disk, each once, oldest first; one torn file fails the whole listing. */
    method List(includeAll: bool) returns (r: Result<seq<Item>>)
      requires Valid()
      ensures r.Ok? <==> AllParse(files)
      ensures r.Ok? ==> forall item :: item in r.value <==> Listed(files, files.Keys, includeAll, item)
      ensures r.Ok? ==> OldestFirst(r.value)
    {
      var items: seq<Item> := [];
      var unread := files.Keys;
      while unread != {}
        invariant unread <= files.Keys
        invariant forall id :: id in files && id !in unread ==> files[id].Valid?
        invariant forall item :: item in items <==> Listed(files, files.Keys - unread, includeAll, item)
        invariant Ordering.SortedBy(items, StampOf)
        decreases unread
      {
        var id :| id in unread;
        if files[id].Torn? {
          return Err;
        }
        var item := files[id].item;
        OneMoreListed(files, unread, id, includeAll);
        if includeAll || item.status == Pending {
          forall other | other in items
            ensures StampOf(other) != StampOf(item)
          {
            assert Listed(files, files.Keys - unread, includeAll, other);
          }
          forall other
            ensures other in Ordering.InsertBy(item, items, StampOf) <==> other == item || other in items
          {
            Ordering.InsertByHas(item, items, StampOf, other);
          }
          Ordering.InsertBySorts(item, items, StampOf);
          items := Ordering.InsertBy(item, items, StampOf);
        }
        unread := unread - {id};
      }
      assert files.Keys - unread == files.Keys;
      SortedIsOldestFirst(items);
      return Ok(items);
    }

    static predicate SendAlreadyAttempted(items: seq<Item>, key: Key, exceptId: string) {
      exists i :: 0 <= i < |items| && items[i].id != exceptId && items[i].sendMessageId == Some(key) &&
        items[i].status.BlocksResend()
    }

    method Enqueue(item: Item, uninterrupted: bool) returns (outcome: Outcome)
      requires AtRest()
      requires item.id !in files && item.status == Pending && item.sendMessageId == None
      modifies this
      ensures AtRest() && old(trace) <= trace && sent == old(sent)
      ensures outcome == Completed ==> files == old(files)[item.id := File.Valid(item)]
      ensures OthersKept(old(files), files, item.id)
      ensures uninterrupted ==> outcome == Completed
    {
      outcome := WriteItem(item, Action.Enqueue(item), Idle, uninterrupted);
    }

    /** `queue drop` accepts an item in any state, a sent one included. */
    method QueueDrop(id: string, uninterrupted: bool) returns (outcome: Outcome)
      requires AtRest()
      modifies this
      ensures AtRest() && old(trace) <= trace && sent == old(sent)
      ensures id !in old(files) || old(files)[id].Torn? ==> outcome == Failure && files == old(files)
      ensures outcome == Completed ==> id in old(files) && old(files)[id].Valid?
      ensures outcome == Completed ==> files == old(files)[id := File.Valid(old(files)[id].item.(status := Dropped))]
      ensures OthersKept(old(files), files, id)
      ensures uninterrupted ==> (outcome == Completed <==> id in old(files) && old(files)[id].Valid?)
    {
      var r := Load(id);
      if r.Err? {
        return Failure;
      }
      outcome := WriteItem(r.value.Marked(Dropped), Action.Drop(id), Idle, uninterrupted);
    }

    /**
     Runs a pending send: `authorized` and `data` are the policy's verdict and
     the bytes of the .eml file, if it can be read; `delivery` is what becomes
     of the send once the intent is recorded.
     */
    method RunQueuedSend(
        item: Item, authorized: bool, data: Option<Bytes>, parse: Bytes -> Option<string>, delivery: Delivery,
        uninterrupted: bool)
      returns (outcome: Outcome)
      requires AtRest()
      requires item.id in files && files[item.id] == File.Valid(item) && item.status == Pending && item.command.Send?
      modifies this
      ensures AtRest() && old(trace) <= trace
      ensures OthersKept(old(files), files, item.id)
      ensures sent != old(sent) ==> authorized && data.Some? && AllParse(old(files))
      ensures sent != old(sent) ==> !CarriedElsewhere(old(files), item.id, data.value, parse)
      ensures sent != old(sent) ==> sent == old(sent) + [Attempt(item.id, SendDedupeKey(data.value, parse))]
      ensures !authorized ==> outcome != Completed
      ensures !authorized ==> RecordedOrNot(old(files), files, item.(status := Failed))
      ensures authorized && data.None? ==> outcome == Failure && files == old(files)
      ensures outcome == Completed ==> authorized && data.Some? && item.id in files
      ensures outcome == Completed ==>
                files[item.id] ==
                File.Valid(item.(status := Executed, sendMessageId := Some(SendDedupeKey(data.value, parse))))
      ensures outcome == Completed && sent == old(sent) ==>
                CarriedElsewhere(old(files), item.id, data.value, parse)
      ensures uninterrupted ==>
                (outcome == Completed <==>
                 && authorized && data.Some? && AllParse(old(files))
                 && (CarriedElsewhere(old(files), item.id, data.value, parse) || delivery == Accepted))
      ensures uninterrupted ==>
                (sent != old(sent) <==>
                 && authorized && data.Some? && AllParse(old(files))
                 && !CarriedElsewhere(old(files), item.id, data.value, parse) && delivery != Unprepared)
    {
      if !authorized {
        var refused := WriteItem(item.Marked(Failed), Refuse(item.id), Idle, uninterrupted);
        return if refused == Completed then Failure else refused;
      }
      if data.None? {
        return Failure;
      }
      var key := SendDedupeKey(data.value, parse);
      var history := List(true);
      if history.Err? {
        return Failure;
      }
      HistoryDecides(history.value, key, item.id);
      AttemptedIffCarried(files, item.id, data.value, parse);
      if SendAlreadyAttempted(history.value, key, item.id) {
        outcome := WriteItem(item.WithKey(key).Marked(Executed), SkipSent(item.id, key), Idle, uninterrupted);
        return;
      }
      outcome := IntendAndSend(item, key, delivery, uninterrupted);
    }

    /** Records the intent, and only if that is durable goes on to the transport. */
    method IntendAndSend(item: Item, key: Key, delivery: Delivery, uninterrupted: bool) returns (outcome: Outcome)
      requires AtRest() && MayTransmit(files, item, key)
      requires item.id in files && files[item.id] == File.Valid(item) && item.status == Pending && item.command.Send?
      modifies this
      ensures AtRest() && old(trace) <= trace
      ensures OthersKept(old(files), files, item.id)
      ensures sent == old(sent) || sent == old(sent) + [Attempt(item.id, key)]
      ensures outcome == Completed ==> sent == old(sent) + [Attempt(item.id, key)] && item.id in files
      ensures outcome == Completed ==>
                files[item.id] == File.Valid(item.(status := Executed, sendMessageId := Some(key)))
      ensures uninterrupted ==> (outcome == Completed <==> delivery == Accepted)
      ensures uninterrupted ==> (sent != old(sent) <==> delivery != Unprepared)
    {
      var intent := item.WithKey(key).Marked(Sending);
      outcome := WriteItem(intent, Intend(item.id, key), Intended(Attempt(item.id, key)), uninterrupted);
      if outcome == Completed {
        outcome := SendPath(intent, key, delivery, uninterrupted);
      }
    }

    /** Calls the transport for an item whose intent is durable, then records the outcome. */
    method SendPath(intent: Item, key: Key, delivery: Delivery, uninterrupted: bool) returns (outcome: Outcome)
      requires Valid() && control == Intended(Attempt(intent.id, key))
      requires intent.id in files && files[intent.id] == File.Valid(intent)
      modifies this
      ensures AtRest() && old(trace) <= trace
      ensures sent == if delivery == Unprepared then old(sent) else old(sent) + [Attempt(intent.id, key)]
      ensures OthersKept(old(files), files, intent.id)
      ensures outcome == Completed ==>
                delivery == Accepted && files == old(files)[intent.id := File.Valid(intent.(status := Executed))]
      ensures outcome == Failure && delivery != Accepted ==>
                RecordedOrNot(old(files), files, intent.(status := Failed))
      ensures uninterrupted ==> (outcome == Completed <==> delivery == Accepted)
    {
      if delivery == Unprepared {
        outcome := WriteItem(intent.Marked(Failed), Abort, Idle, uninterrupted);
        outcome := if outcome == Completed then Failure else outcome;
        return;
      }
      ghost var before := Now();
      sent, control := sent + [Attempt(intent.id, key)], Transmitted(Attempt(intent.id, key));
      Log(Transmit, before);
      if delivery == Accepted {
        outcome := WriteItem(intent.Marked(Executed), Record(Executed), Idle, uninterrupted);
      } else {
        outcome := WriteItem(intent.Marked(Failed), Record(Failed), Idle, uninterrupted);
        outcome := if outcome == Completed then Failure else outcome;
      }
    }

    /** Searching the listed items answers the question about the files. */
    lemma HistoryDecides(items: seq<Item>, key: Key, exceptId: string)
      requires AllParse(files)
      requires forall item :: item in items <==> Listed(files, files.Keys, true, item)
      ensures SendAlreadyAttempted(items, key, exceptId) <==> AlreadyAttempted(files, key, exceptId)
    {
      if SendAlreadyAttempted(items, key, exceptId) {
        var i :| 0 <= i < |items| && items[i].id != exceptId && items[i].sendMessageId == Some(key) &&
          items[i].status.BlocksResend();
        assert items[i] in items;
        assert Listed(files, files.Keys, true, items[i]);
        var id :| id in files.Keys && HoldsItem(files, id, items[i]);
        assert BlockedBy(files, id, key, exceptId);
      }
      if AlreadyAttempted(files, key, exceptId) {
        var id :| id in files && BlockedBy(files, id, key, exceptId);
        assert HoldsItem(files, id, files[id].item);
        assert files[id].item in items;
      }
    }

    /** Runs one item: a `Sending` item is skipped, any other non-pending item is an error. */
    method RunOneQueuedItem(id: string, parse: Bytes -> Option<string>, around: Circumstances, uninterrupted: bool)
      returns (outcome: Outcome)
      requires AtRest()
      modifies this
      ensures AtRest() && old(trace) <= trace
      ensures OthersKept(old(files), files, id)
      ensures old(sent) <= sent && |sent| <= |old(sent)| + 1
      ensures !IsPending(old(files), id) ==> files == old(files) && sent == old(sent)
      ensures !IsPending(old(files), id) ==>
                (outcome == Completed <==> id in files && files[id].Valid? && files[id].item.status == Sending)
      ensures !AllParse(old(files)) ==> sent == old(sent)
      ensures IsPending(old(files), id) && outcome == Completed ==>
                id in files && files[id].Valid? && files[id].item.status == Executed
      ensures uninterrupted ==> (outcome == Completed <==> Succeeds(old(files), id, parse, around))
    {
      var r := Load(id);
      if r.Err? {
        return Failure;
      }
      var item := r.value;
      if item.status == Sending {
        return Completed;
      }
      if item.status != Pending {
        return Failure;
      }
      if item.command.Send? {
        outcome := RunQueuedSend(item, around.authorized, around.data, parse, around.delivery, uninterrupted);
        return;
      }
      if around.commandSucceeds {
        outcome := WriteItem(item.Marked(Executed), RunOther(id, Executed), Idle, uninterrupted);
      } else {
        outcome := WriteItem(item.Marked(Failed), RunOther(id, Failed), Idle, uninterrupted);
        outcome := if outcome == Completed then Failure else outcome;
      }
    }

    /** `queue run`: named items, or all the pending ones. */
    method QueueRun(
        named: seq<string>, all: bool, parse: Bytes -> Option<string>, around: string -> Circumstances,
        uninterrupted: bool)
      returns (outcome: Outcome)
      requires AtRest()
      modifies this
      ensures AtRest() && old(trace) <= trace
      ensures all == (named != []) ==> outcome == Failure && files == old(files) && sent == old(sent)
      ensures forall id :: id in old(files) && !(if all then IsPending(old(files), id) else id in named) ==>
                id in files && files[id] == old(files[id])
      ensures old(sent) <= sent
      ensures !AllParse(old(files)) ==> sent == old(sent)
      ensures all && !AllParse(old(files)) ==> outcome == Failure && files == old(files)
      ensures outcome == Completed ==>
                forall id :: (if all then IsPending(old(files), id) else id in named) ==>
                  RanOrSending(old(files), files, id)
      ensures uninterrupted && outcome != Completed && all != (named != []) && (all ==> AllParse(old(files))) ==>
                exists ids, i, was :: StoppedAt(old(files), was, ids, i, parse, around) &&
                  (if all then forall id :: id in ids <==> IsPending(old(files), id) else ids == named)
    {
      if all == (named != []) {
        return Failure;
      }
      if !all {
        outcome := RunInTurn(named, parse, around, uninterrupted);
        return;
      }
      var pending := List(false);
      if pending.Err? {
        return Failure;
      }
      var ids := IdsOf(pending.value);
      PendingIdsAre(files, pending.value);
      outcome := RunInTurn(ids, parse, around, uninterrupted);
      if uninterrupted && outcome != Completed {
        assert exists i, was :: StoppedAt(old(files), was, ids, i, parse, around);
      }
    }

    /** The items in turn, up to the first that does not complete. */
    method RunInTurn(
        ids: seq<string>, parse: Bytes -> Option<string>, around: string -> Circumstances, uninterrupted: bool)
      returns (outcome: Outcome)
      requires AtRest()
      modifies this
      ensures AtRest() && old(trace) <= trace
      ensures forall id :: id in old(files) && id !in ids ==> id in files && files[id] == old(files[id])
      ensures old(sent) <= sent
      ensures !AllParse(old(files)) ==> sent == old(sent)
      ensures outcome == Completed ==> forall id :: id in ids ==> RanOrSending(old(files), files, id)
      ensures uninterrupted && outcome != Completed ==>
                exists i, was :: StoppedAt(old(files), was, ids, i, parse, around)
    {
      outcome := Completed;
      var i := 0;
      while i < |ids| && outcome == Completed
        invariant 0 <= i <= |ids|
        invariant AtRest() && old(trace) <= trace
        invariant forall id :: id in old(files) && id !in ids ==> id in files && files[id] == old(files[id])
        invariant old(sent) <= sent
        invariant !AllParse(old(files)) ==> !AllParse(files) && sent == old(sent)
        invariant outcome == Completed ==> InTurn(old(files), files, ids, i)
        invariant uninterrupted && outcome != Completed ==>
                    exists k, was :: StoppedAt(old(files), was, ids, k, parse, around)
      {
        ghost var torn :| AllParse(files) || (torn in files && files[torn].Torn?);
        assert ids[i] in ids;
        ghost var was := files;
        outcome := RunOneQueuedItem(ids[i], parse, around(ids[i]), uninterrupted);
        assert !AllParse(was) ==> torn in files && files[torn].Torn?;
        if outcome == Completed {
          OneMoreRan(old(files), was, files, ids, i);
        } else if uninterrupted {
          assert StoppedAt(old(files), was, ids, i, parse, around);
        }
        i := i + 1;
      }
    }
  }
}
