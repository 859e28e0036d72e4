/**
 The thread walk: breadth-first over the graph of indexed messages and the
 Message-IDs they carry or refer to.
 */
module Threads {
  import opened Basics
  import Ordering

  const THREAD_WALK_LIMIT: nat := 10_000

  datatype IndexedMessage = IndexedMessage(
    messageId: string, date: string, rfcId: Option<string>, localRole: string, fromAddr: string)

  /** The Message-IDs linked from each message; a message without links may be absent. */
  type Links = map<string, set<string>>

  /** One account of the email index; link rows belong to indexed messages. */
  datatype Index = Index(messages: map<string, IndexedMessage>, links: Links) {
    ghost predicate Valid() {
      && links.Keys <= messages.Keys
      && forall id :: id in messages ==> messages[id].messageId == id
    }

    /** As a rebuild leaves it: a message's own Message-ID is among its links. */
    ghost predicate Rebuilt() {
      Valid() && forall id :: id in messages && messages[id].rfcId.Some? ==>
        messages[id].rfcId.value in Related(links, id)
    }
  }

  function Related(links: Links, id: string): set<string> {
    if id in links then links[id] else {}
  }

  function LinkingTo(links: Links, rfcId: string): set<string> {
    set id | id in links && rfcId in links[id]
  }

  // ----- the connected component -----

  predicate Adjacent(links: Links, a: string, b: string) {
    Related(links, a) * Related(links, b) != {}
  }

  ghost predicate Chain(links: Links, path: seq<string>, a: string, b: string) {
    && path != [] && path[0] == a && path[|path| - 1] == b
    && forall i :: 0 <= i < |path| - 1 ==> Adjacent(links, path[i], path[i + 1])
  }

  /** Joined by a chain of messages, neighbours sharing a Message-ID. */
  ghost predicate Connected(links: Links, a: string, b: string) {
    exists path :: Chain(links, path, a, b)
  }

  ghost function Component(links: Links, seed: string): set<string> {
    set id | id in links.Keys + {seed} && Connected(links, seed, id)
  }

  function IdsOf(links: Links, messages: set<string>): set<string> {
    set id, rfcId | id in messages && rfcId in Related(links, id) :: rfcId
  }

  lemma {:induction false} ConnectedReflexive(links: Links, a: string)
    ensures Connected(links, a, a)
  {
    assert Chain(links, [a], a, a);
  }

  lemma {:induction false} ConnectedSymmetric(links: Links, a: string, b: string)
    requires Connected(links, a, b)
    ensures Connected(links, b, a)
  {
    var path :| Chain(links, path, a, b);
    var back := seq(|path|, i requires 0 <= i < |path| => path[|path| - 1 - i]);
    forall i | 0 <= i < |back| - 1
      ensures Adjacent(links, back[i], back[i + 1])
    {
      var j := |path| - 2 - i;
      assert Adjacent(links, path[j], path[j + 1]);
      assert back[i] == path[j + 1] && back[i + 1] == path[j];
      assert Related(links, back[i]) * Related(links, back[i + 1]) ==
        Related(links, path[j]) * Related(links, path[j + 1]);
    }
    assert Chain(links, back, b, a);
  }

  lemma {:induction false} ConnectedTransitive(links: Links, a: string, b: string, c: string)
    requires Connected(links, a, b) && Connected(links, b, c)
    ensures Connected(links, a, c)
  {
    var p :| Chain(links, p, a, b);
    var q :| Chain(links, q, b, c);
    var path := p + q[1..];
    forall i | 0 <= i < |path| - 1
      ensures Adjacent(links, path[i], path[i + 1])
    {
      if i < |p| - 1 {
        assert path[i] == p[i] && path[i + 1] == p[i + 1];
      } else {
        var j := i - (|p| - 1);
        assert path[i] == q[j] && path[i + 1] == q[j + 1];
      }
    }
    assert Chain(links, path, a, c);
  }

  /** Adding an adjacent message stays within the component. */
  lemma {:induction false} ComponentGrows(links: Links, seed: string, a: string, b: string)
    requires a in Component(links, seed) && Adjacent(links, a, b)
    ensures b in Component(links, seed)
  {
    assert Chain(links, [a, b], a, b);
    ConnectedTransitive(links, seed, a, b);
    assert b in links;
  }

  /** A set with the seed that is closed under shared Message-IDs contains the component. */
  lemma {:induction false} ClosedContainsComponent(links: Links, seed: string, closed: set<string>, id: string)
    requires seed in closed
    requires forall a, b :: a in closed && Adjacent(links, a, b) ==> b in closed
    requires Connected(links, seed, id)
    ensures id in closed
  {
    var path :| Chain(links, path, seed, id);
    var i := 0;
    while i < |path| - 1
      invariant 0 <= i < |path| && path[i] in closed
    {
      assert Adjacent(links, path[i], path[i + 1]);
      i := i + 1;
    }
  }

  // ----- the walk -----

  /** The graph the walk from `seed` explores: the seed's own Message-ID counts as a link of it. */
  function WithOwn(links: Links, seed: string, own: Option<string>): Links {
    if own.None? || own.value in Related(links, seed) then links
    else links[seed := Related(links, seed) + {own.value}]
  }

  method ExpandThreadId(links: Links, rfcId: string, messageIds0: set<string>, seen0: set<string>, queue0: seq<string>)
    returns (messageIds: set<string>, seen: set<string>, queue: seq<string>)
    ensures messageIds == messageIds0 + LinkingTo(links, rfcId)
    ensures seen == seen0 + IdsOf(links, LinkingTo(links, rfcId) - messageIds0)
    ensures queue0 <= queue
    ensures forall x :: x in queue[|queue0|..] <==> x in seen && x !in seen0
    ensures seen == seen0 ==> queue == queue0
    ensures seen <= seen0 + IdsOf(links, links.Keys)
  {
    messageIds, seen, queue := messageIds0, seen0, queue0;
    var linking := LinkingTo(links, rfcId);
    var rest := linking;
    while rest != {}
      invariant rest <= linking
      invariant messageIds == messageIds0 + (linking - rest)
      invariant seen == seen0 + IdsOf(links, linking - rest - messageIds0)
      invariant queue0 <= queue
      invariant forall x :: x in queue[|queue0|..] <==> x in seen && x !in seen0
      invariant seen == seen0 ==> queue == queue0
      decreases rest
    {
      var id :| id in rest;
      ghost var rest0, seen1 := rest, seen;
      rest := rest - {id};
      if id in messageIds {
        assert linking - rest - messageIds0 == linking - rest0 - messageIds0;
        continue;
      }
      assert linking - rest - messageIds0 == (linking - rest0 - messageIds0) + {id};
      messageIds := messageIds + {id};
      var related := Related(links, id);
      var unpushed := related;
      while unpushed != {}
        invariant unpushed <= related
        invariant seen == seen1 + (related - unpushed)
        invariant queue0 <= queue
        invariant forall x :: x in queue[|queue0|..] <==> x in seen && x !in seen0
        invariant seen == seen0 ==> queue == queue0
        decreases unpushed
      {
        var relatedId :| relatedId in unpushed;
        unpushed := unpushed - {relatedId};
        if relatedId !in seen {
          seen := seen + {relatedId};
          ghost var tail := queue[|queue0|..];
          queue := queue + [relatedId];
          assert queue[|queue0|..] == tail + [relatedId];
        }
      }
    }
  }

  /** What the walk keeps: reached messages, their Message-IDs, and those still queued. */
  ghost predicate WalkInv(
      links: Links, seed: string, own: Option<string>, messageIds: set<string>, seen: set<string>, queue: seq<string>)
  {
    && seed in messageIds
    && messageIds <= Component(WithOwn(links, seed, own), seed)
    && seen == IdsOf(WithOwn(links, seed, own), messageIds)
    && (forall x :: x in queue ==> x in seen)
    && (forall x :: x in seen && x !in queue ==> LinkingTo(links, x) <= messageIds)
  }

  lemma {:induction false} ExpandKeepsInv(
      links: Links, seed: string, own: Option<string>, messageIds0: set<string>, seen0: set<string>,
      queue0: seq<string>, messageIds: set<string>, seen: set<string>, queue: seq<string>)
    requires queue0 != [] && WalkInv(links, seed, own, messageIds0, seen0, queue0)
    requires messageIds == messageIds0 + LinkingTo(links, queue0[0])
    requires seen == seen0 + IdsOf(links, LinkingTo(links, queue0[0]) - messageIds0)
    requires queue0[1..] <= queue
    requires forall x :: x in queue[|queue0| - 1..] <==> x in seen && x !in seen0
    ensures WalkInv(links, seed, own, messageIds, seen, queue)
  {
    var full, rfcId := WithOwn(links, seed, own), queue0[0];
    forall id | id in LinkingTo(links, rfcId)
      ensures id in Component(full, seed)
    {
      assert rfcId in seen0;
      var from :| from in messageIds0 && rfcId in Related(full, from);
      assert rfcId in Related(full, id);
      assert rfcId in Related(full, from) * Related(full, id);
      ComponentGrows(full, seed, from, id);
    }
    assert queue == queue0[1..] + queue[|queue0| - 1..];
    assert forall id :: id != seed ==> Related(full, id) == Related(links, id);
  }

  /** One round of the walk: either a Message-ID is seen for the first time, or the queue gets shorter. */
  method WalkRound(
      links: Links, seed: string, own: Option<string>, messageIds0: set<string>, seen0: set<string>,
      queue0: seq<string>, ghost universe: set<string>)
    returns (messageIds: set<string>, seen: set<string>, queue: seq<string>)
    requires queue0 != [] && WalkInv(links, seed, own, messageIds0, seen0, queue0)
    requires seen0 + IdsOf(links, links.Keys) <= universe
    ensures WalkInv(links, seed, own, messageIds, seen, queue)
    ensures seen <= universe
    ensures |universe - seen| < |universe - seen0| || (|universe - seen| == |universe - seen0| && |queue| < |queue0|)
  {
    messageIds, seen, queue := ExpandThreadId(links, queue0[0], messageIds0, seen0, queue0[1..]);
    ExpandKeepsInv(links, seed, own, messageIds0, seen0, queue0, messageIds, seen, queue);
    if seen != seen0 {
      assert universe - seen0 == (universe - seen) + (seen - seen0);
      assert seen - seen0 != {};
    }
  }

  lemma {:induction false} WalkStarts(
      links: Links, seed: string, own: Option<string>, seen: set<string>, queue: seq<string>)
    requires seen == Related(links, seed) + (if own.Some? then {own.value} else {})
    requires forall x :: x in queue <==> x in seen
    ensures WalkInv(links, seed, own, {seed}, seen, queue)
  {
    var full := WithOwn(links, seed, own);
    ConnectedReflexive(full, seed);
    assert seen == Related(full, seed) == IdsOf(full, {seed});
  }

  /** An empty queue means nothing more shares a Message-ID with what was reached. */
  lemma {:induction false} WalkEnds(
      links: Links, seed: string, own: Option<string>, messageIds: set<string>, seen: set<string>)
    requires WalkInv(links, seed, own, messageIds, seen, [])
    ensures messageIds == Component(WithOwn(links, seed, own), seed)
  {
    var full := WithOwn(links, seed, own);
    forall a, b | a in messageIds && Adjacent(full, a, b)
      ensures b in messageIds
    {
      var shared :| shared in Related(full, a) * Related(full, b);
      assert shared in seen;
      assert b == seed || b in LinkingTo(links, shared);
    }
    forall id | id in Component(full, seed)
      ensures id in messageIds
    {
      ClosedContainsComponent(full, seed, messageIds, id);
    }
  }

  /** The walk reaches only the component, and all of it when the component is within the limit. */
  method ThreadMessageIds(links: Links, seed: string, own: Option<string>, limit: nat) returns (messageIds: set<string>)
    ensures seed in messageIds
    ensures messageIds <= Component(WithOwn(links, seed, own), seed)
    ensures
      var component := Component(WithOwn(links, seed, own), seed);
      |component| <= limit && |IdsOf(WithOwn(links, seed, own), component)| <= limit ==> messageIds == component
  {
    ghost var full := WithOwn(links, seed, own);
    ghost var component := Component(full, seed);
    messageIds := {seed};
    var seen := Related(links, seed) + (if own.Some? then {own.value} else {});
    var queue := SeqOf(seen);
    WalkStarts(links, seed, own, seen, queue);
    ghost var universe := seen + IdsOf(links, links.Keys);
    while queue != []
      invariant WalkInv(links, seed, own, messageIds, seen, queue)
      invariant seen + IdsOf(links, links.Keys) <= universe
      decreases |universe - seen|, |queue|
    {
      SubsetsWithin(full, messageIds, component);
      if |seen| > limit || |messageIds| > limit {
        return;
      }
      messageIds, seen, queue := WalkRound(links, seed, own, messageIds, seen, queue, universe);
    }
    WalkEnds(links, seed, own, messageIds, seen);
  }

  lemma {:induction false} SubsetsWithin(links: Links, part: set<string>, whole: set<string>)
    requires part <= whole
    ensures |part| <= |whole| && |IdsOf(links, part)| <= |IdsOf(links, whole)|
  {
    SubsetSize(part, whole);
    SubsetSize(IdsOf(links, part), IdsOf(links, whole));
  }

  lemma {:induction false} SubsetSize(part: set<string>, whole: set<string>)
    requires part <= whole
    ensures |part| <= |whole|
  {
    assert whole == part + (whole - part);
  }

  method SeqOf(s: set<string>) returns (r: seq<string>)
    ensures forall x :: x in r <==> x in s
  {
    r := [];
    var rest := s;
    while rest != {}
      invariant rest <= s
      invariant forall x :: x in r <==> x in s - rest
      decreases rest
    {
      var x :| x in rest;
      rest := rest - {x};
      r := r + [x];
    }
  }

  // ----- the ordered thread -----

  function StampOf(m: IndexedMessage): Ordering.Stamp {
    Ordering.Stamp(m.date, m.messageId)
  }

  predicate IsIndexed(index: Index, m: IndexedMessage) {
    m.messageId in index.messages && index.messages[m.messageId] == m
  }

  /** The messages of `ids`, each once, by date and then by id. */
  ghost predicate IsOrdered(index: Index, ids: set<string>, list: seq<IndexedMessage>) {
    && (forall m :: m in list <==> m.messageId in ids && IsIndexed(index, m))
    && Ordering.SortedBy(list, StampOf)
  }

  /** `messages_for_message_ids`: look each id up, then sort. */
  method MessagesForMessageIds(index: Index, ids: set<string>) returns (list: seq<IndexedMessage>)
    requires index.Valid()
    ensures IsOrdered(index, ids, list)
  {
    list := [];
    var rest := ids;
    while rest != {}
      invariant rest <= ids
      invariant IsOrdered(index, ids - rest, list)
      decreases rest
    {
      var id :| id in rest;
      if id in index.messages {
        var m := index.messages[id];
        forall x
          ensures x in Ordering.InsertBy(m, list, StampOf) <==> x == m || x in list
        {
          Ordering.InsertByHas(m, list, StampOf, x);
        }
        Ordering.InsertBySorts(m, list, StampOf);
        list := Ordering.InsertBy(m, list, StampOf);
      }
      rest := rest - {id};
    }
    assert ids - rest == ids;
  }

  predicate DistinctIds(list: seq<IndexedMessage>) {
    forall i, j :: 0 <= i < j < |list| ==> list[i].messageId != list[j].messageId
  }

  lemma {:induction false} OrderedIsDistinct(index: Index, ids: set<string>, list: seq<IndexedMessage>)
    requires IsOrdered(index, ids, list)
    ensures DistinctIds(list)
  {
    forall i, j | 0 <= i < j < |list|
      ensures list[i].messageId != list[j].messageId
    {
      assert list[i] in list && list[j] in list;
      Ordering.BeforeIrreflexive(StampOf(list[i]));
    }
  }

  /** By date, and among equal dates by id. */
  predicate OldestFirst(list: seq<IndexedMessage>) {
    forall i, j :: 0 <= i < j < |list| ==>
      && !Ordering.Less(list[j].date, list[i].date)
      && (list[i].date == list[j].date ==> Ordering.Less(list[i].messageId, list[j].messageId))
  }

  lemma {:induction false} OrderedIsOldestFirst(index: Index, ids: set<string>, list: seq<IndexedMessage>)
    requires IsOrdered(index, ids, list)
    ensures OldestFirst(list)
  {
    forall i, j | 0 <= i < j < |list|
      ensures !Ordering.Less(list[j].date, list[i].date)
      ensures list[i].date == list[j].date ==> Ordering.Less(list[i].messageId, list[j].messageId)
    {
      Ordering.BeforeIff(StampOf(list[i]), StampOf(list[j]));
    }
  }

  ghost predicate WithinLimit(links: Links, seed: string) {
    |Component(links, seed)| <= 10_000 && |IdsOf(links, Component(links, seed))| <= 10_000
  }

  /** The thread of an indexed message is the ordered list of its component. */
  ghost predicate IsThread(index: Index, seed: string, list: seq<IndexedMessage>) {
    IsOrdered(index, Component(index.links, seed), list)
  }

  /** What shares Message-IDs with an indexed message, its own one included, directly or through others. */
  ghost function Reachable(index: Index, seed: string): set<string>
    requires seed in index.messages
  {
    Component(WithOwn(index.links, seed, index.messages[seed].rfcId), seed)
  }

  method ThreadMessages(index: Index, seed: string) returns (thread: Result<seq<IndexedMessage>>)
    requires index.Valid()
    ensures thread.Ok? <==> seed in index.messages
    ensures thread.Ok? ==> index.messages[seed] in thread.value
    ensures thread.Ok? ==> forall m :: m in thread.value ==> IsIndexed(index, m)
    ensures thread.Ok? ==> DistinctIds(thread.value) && OldestFirst(thread.value)
    ensures thread.Ok? ==> forall m :: m in thread.value ==> m.messageId in Reachable(index, seed)
    ensures thread.Ok? && index.Rebuilt() && WithinLimit(index.links, seed) ==> IsThread(index, seed, thread.value)
  {
    if seed !in index.messages {
      return Err;
    }
    var own := index.messages[seed].rfcId;
    var ids := ThreadMessageIds(index.links, seed, own, THREAD_WALK_LIMIT);
    var list := MessagesForMessageIds(index, ids);
    OrderedIsDistinct(index, ids, list);
    OrderedIsOldestFirst(index, ids, list);
    assert index.messages[seed].messageId == seed;
    return Ok(list);
  }

  // ----- threads are classes -----

  /** A member of a component has the same component. */
  lemma {:induction false} SameComponent(links: Links, a: string, b: string)
    requires b in Component(links, a)
    ensures Component(links, b) == Component(links, a)
  {
    ConnectedSymmetric(links, a, b);
    forall id
      ensures Connected(links, a, id) <==> Connected(links, b, id)
    {
      if Connected(links, a, id) {
        ConnectedTransitive(links, b, a, id);
      }
      if Connected(links, b, id) {
        ConnectedTransitive(links, a, b, id);
      }
    }
    assert forall id :: id in Component(links, a) ==> id in links.Keys + {b} by {
      forall id | id in Component(links, a)
        ensures id in links.Keys + {b}
      {
        if id != b {
          SingletonOrLinked(links, b, id);
        }
      }
    }
    forall id | id in Component(links, b)
      ensures id in links.Keys + {a}
    {
      if id != a {
        SingletonOrLinked(links, a, id);
      }
    }
  }

  /** Whatever else a message is connected to carries links. */
  lemma {:induction false} SingletonOrLinked(links: Links, a: string, b: string)
    requires a != b && Connected(links, a, b)
    ensures a in links && b in links
  {
    var path :| Chain(links, path, a, b);
    assert Adjacent(links, path[0], path[1]) && Adjacent(links, path[|path| - 2], path[|path| - 2 + 1]);
  }

  lemma {:induction false} OrderedUnique(index: Index, ids: set<string>, s: seq<IndexedMessage>, t: seq<IndexedMessage>)
    requires IsOrdered(index, ids, s) && IsOrdered(index, ids, t)
    ensures s == t
  {
    Ordering.SortedUnique(s, t, StampOf);
  }

  /** Every member of a thread has that same thread, as one ordered list. */
  lemma {:induction false} ThreadsAreClasses(
      index: Index, a: string, b: string, thread: seq<IndexedMessage>, thread': seq<IndexedMessage>)
    requires index.Valid() && b in index.messages
    requires IsThread(index, a, thread) && IsThread(index, b, thread')
    ensures index.messages[b] in thread ==> thread' == thread
    ensures index.messages[b] !in thread ==> forall m :: m in thread ==> m !in thread'
    ensures WithinLimit(index.links, a) && index.messages[b] in thread ==> WithinLimit(index.links, b)
  {
    if index.messages[b] in thread {
      SameComponent(index.links, a, b);
      OrderedUnique(index, Component(index.links, a), thread, thread');
    } else {
      ConnectedReflexive(index.links, b);
      forall m | m in thread
        ensures m !in thread'
      {
        SameComponent(index.links, a, m.messageId);
        if m.messageId in Component(index.links, b) {
          SameComponent(index.links, b, m.messageId);
        }
      }
    }
  }
}
