/**
 The email index: one row, a set of links and a search document per message,
 rebuilt from the active catalog entries inside one transaction.

 Deleting an index row cascades to its links; search documents live in a
 full-text table that no foreign key reaches.
 */
module IndexRebuild {
  import opened Basics

  datatype Key = Key(account: string, messageId: string)

  datatype Link = Link(kind: string, rfcId: string)

  /** The searchable columns of a catalog entry. */
  datatype Doc = Doc(localRole: string, date: string, addresses: seq<string>, subject: string, rfcId: string)

  datatype SearchDoc = SearchDoc(key: Key, doc: Doc)

  datatype Entry = Entry(handle: string, contentId: string, blobPath: string, doc: Doc)

  /** `rows` maps an indexed message to the content it was indexed from. */
  datatype Tables = Tables(rows: map<Key, string>, links: map<Key, set<Link>>, docs: seq<SearchDoc>)

  datatype Stats = Stats(scanned: nat, updated: nat, reused: nat, stale: nat, errors: nat)

  /** The archive a rebuild reads: blob files by path, and the links of some bytes. */
  datatype Source = Source(read: string -> Option<Bytes>, linksOf: Bytes -> set<Link>)

  ghost predicate Valid(t: Tables) {
    t.links.Keys <= t.rows.Keys
  }

  function LinksAt(t: Tables, key: Key): set<Link> {
    if key in t.links then t.links[key] else {}
  }

  /** The WHERE clauses used on the full-text table; `Hits` is a match joined with the tables it names. */
  datatype Where =
    | Of(key: Key)
    | NotOf(key: Key)
    | NotIn(keys: set<Key>)
    | NotStale(t: Tables, account: string, seen: set<string>)
    | Hits(hit: SearchDoc -> bool)
  {
    predicate Holds(d: SearchDoc) {
      match this
      case Of(key) => d.key == key
      case NotOf(key) => d.key != key
      case NotIn(keys) => d.key !in keys
      case NotStale(t, account, seen) => !Stale(t, account, seen, d.key)
      case Hits(hit) => hit(d)
    }
  }

  function Filter(docs: seq<SearchDoc>, keep: Where): seq<SearchDoc> {
    if docs == [] then []
    else (if keep.Holds(docs[0]) then [docs[0]] else []) + Filter(docs[1..], keep)
  }

  function DocsAt(docs: seq<SearchDoc>, key: Key): seq<SearchDoc> {
    Filter(docs, Of(key))
  }

  function DocsExcept(docs: seq<SearchDoc>, key: Key): seq<SearchDoc> {
    Filter(docs, NotOf(key))
  }

  lemma {:induction false} FilterConcat(a: seq<SearchDoc>, b: seq<SearchDoc>, keep: Where)
    ensures Filter(a + b, keep) == Filter(a, keep) + Filter(b, keep)
  {
    if a == [] {
      assert a + b == b;
    } else {
      var first := if keep.Holds(a[0]) then [a[0]] else [];
      assert (a + b)[0] == a[0] && (a + b)[1..] == a[1..] + b;
      FilterConcat(a[1..], b, keep);
      assert Filter(a, keep) == first + Filter(a[1..], keep);
      assert Filter(a + b, keep) == first + Filter(a[1..] + b, keep);
    }
  }

  lemma {:induction false} FilterHas(docs: seq<SearchDoc>, keep: Where, d: SearchDoc)
    ensures d in Filter(docs, keep) <==> d in docs && keep.Holds(d)
  {
    if docs != [] {
      FilterHas(docs[1..], keep, d);
      assert docs == [docs[0]] + docs[1..];
    }
  }

  lemma {:induction false} FilterBoth(docs: seq<SearchDoc>, keep: Where, keep': Where, both: Where)
    requires forall d: SearchDoc :: both.Holds(d) <==> keep.Holds(d) && keep'.Holds(d)
    ensures Filter(Filter(docs, keep), keep') == Filter(docs, both)
  {
    if docs != [] {
      FilterBoth(docs[1..], keep, keep', both);
      FilterConcat(if keep.Holds(docs[0]) then [docs[0]] else [], Filter(docs[1..], keep), keep');
    }
  }

  lemma {:induction false} FilterTwice(docs: seq<SearchDoc>, keep: Where, keep': Where)
    requires forall d: SearchDoc :: keep'.Holds(d) ==> keep.Holds(d)
    ensures Filter(Filter(docs, keep), keep') == Filter(docs, keep')
  {
    FilterBoth(docs, keep, keep', keep');
  }

  lemma {:induction false} FilterNone(docs: seq<SearchDoc>, keep: Where)
    requires forall d :: d in docs ==> !keep.Holds(d)
    ensures Filter(docs, keep) == []
  {
    if docs != [] {
      assert docs[0] in docs;
      FilterNone(docs[1..], keep);
    }
  }

  lemma {:induction false} FilterSame(docs: seq<SearchDoc>, keep: Where, keep': Where)
    requires forall d :: d in docs ==> keep.Holds(d) == keep'.Holds(d)
    ensures Filter(docs, keep) == Filter(docs, keep')
  {
    if docs != [] {
      assert docs[0] in docs;
      FilterSame(docs[1..], keep, keep');
    }
  }

  // ----- one entry -----

  /** An unreadable blob leaves whatever was indexed before. */
  function IndexEntry(t: Tables, account: string, e: Entry, source: Source): Tables {
    var key := Key(account, e.handle);
    match source.read(e.blobPath)
    case None => t
    case Some(data) =>
      Tables(
        t.rows[key := e.contentId],
        t.links[key := source.linksOf(data)],
        DocsExcept(t.docs, key) + [SearchDoc(key, e.doc)])
  }

  function IndexAll(t: Tables, account: string, entries: seq<Entry>, source: Source): Tables {
    if entries == [] then t
    else IndexEntry(IndexAll(t, account, entries[..|entries| - 1], source), account, entries[|entries| - 1], source)
  }

  function Handles(entries: seq<Entry>): set<string> {
    set i | 0 <= i < |entries| :: entries[i].handle
  }

  predicate Distinct(entries: seq<Entry>) {
    forall i, j :: 0 <= i < j < |entries| ==> entries[i].handle != entries[j].handle
  }

  predicate Stale(t: Tables, account: string, seen: set<string>, key: Key) {
    key in t.rows && key.account == account && key.messageId !in seen
  }

  /** Stale rows go with their links and their search documents. */
  function Pruned(t: Tables, account: string, seen: set<string>): Tables {
    Tables(
      map key | key in t.rows && !Stale(t, account, seen, key) :: t.rows[key],
      map key | key in t.links && !Stale(t, account, seen, key) :: t.links[key],
      Filter(t.docs, NotStale(t, account, seen)))
  }

  function Rebuilt(t: Tables, account: string, entries: seq<Entry>, source: Source): Tables {
    Pruned(IndexAll(t, account, entries, source), account, Handles(entries))
  }

  // ----- what a rebuild leaves, key by key -----

  datatype Indexed = Indexed(row: Option<string>, links: set<Link>, docs: seq<SearchDoc>)

  function At(t: Tables, key: Key): Indexed {
    Indexed(if key in t.rows then Some(t.rows[key]) else None, LinksAt(t, key), DocsAt(t.docs, key))
  }

  /** The index of one entry computed from scratch. */
  function Fresh(account: string, e: Entry, data: Bytes, source: Source): Indexed {
    Indexed(Some(e.contentId), source.linksOf(data), [SearchDoc(Key(account, e.handle), e.doc)])
  }

  lemma {:induction false} IndexEntryAt(t: Tables, account: string, e: Entry, source: Source, key: Key)
    ensures At(IndexEntry(t, account, e, source), key) ==
            if key == Key(account, e.handle) && source.read(e.blobPath).Some?
            then Fresh(account, e, source.read(e.blobPath).value, source) else At(t, key)
  {
    if source.read(e.blobPath).Some? {
      var own, docs := Key(account, e.handle), t.docs;
      var added := [SearchDoc(own, e.doc)];
      FilterConcat(DocsExcept(docs, own), added, Of(key));
      assert added[1..] == [];
      if key == own {
        forall d | d in DocsExcept(docs, own)
          ensures d.key != key
        {
          FilterHas(docs, NotOf(own), d);
        }
        FilterNone(DocsExcept(docs, own), Of(key));
        assert Filter(added, Of(key)) == added;
      } else {
        FilterTwice(docs, NotOf(own), Of(key));
        assert Filter(added, Of(key)) == [];
      }
    }
  }

  lemma {:induction false} IndexAllAt(t: Tables, account: string, entries: seq<Entry>, source: Source, key: Key)
    requires Distinct(entries)
    ensures (forall i :: 0 <= i < |entries| && key == Key(account, entries[i].handle) ==>
              At(IndexAll(t, account, entries, source), key) ==
              match source.read(entries[i].blobPath)
              case Some(data) => Fresh(account, entries[i], data, source)
              case None => At(t, key))
    ensures key.account != account || key.messageId !in Handles(entries) ==>
              At(IndexAll(t, account, entries, source), key) == At(t, key)
  {
    if entries != [] {
      var n := |entries| - 1;
      var front := entries[..n];
      IndexAllAt(t, account, front, source, key);
      IndexEntryAt(IndexAll(t, account, front, source), account, entries[n], source, key);
      forall i | 0 <= i < n && key == Key(account, entries[i].handle)
        ensures front[i] == entries[i] && entries[n].handle != entries[i].handle
      {
      }
      if key == Key(account, entries[n].handle) {
        assert key.messageId !in Handles(front);
      }
      if key.messageId !in Handles(entries) {
        assert entries[n].handle in Handles(entries);
        assert Handles(front) <= Handles(entries);
      }
    }
  }

  lemma {:induction false} PrunedAt(t: Tables, account: string, seen: set<string>, key: Key)
    requires Valid(t)
    ensures At(Pruned(t, account, seen), key) ==
            if Stale(t, account, seen, key) then Indexed(None, {}, []) else At(t, key)
  {
    var kept := Filter(t.docs, NotStale(t, account, seen));
    if Stale(t, account, seen, key) {
      forall d | d in kept
        ensures d.key != key
      {
        FilterHas(t.docs, NotStale(t, account, seen), d);
      }
      FilterNone(kept, Of(key));
    } else {
      FilterTwice(t.docs, NotStale(t, account, seen), Of(key));
    }
  }

  lemma {:induction false} IndexAllValid(t: Tables, account: string, entries: seq<Entry>, source: Source)
    requires Valid(t)
    ensures Valid(IndexAll(t, account, entries, source))
  {
    if entries != [] {
      IndexAllValid(t, account, entries[..|entries| - 1], source);
    }
  }

  /**
   The whole effect of a rebuild on one message: an entry whose blob is read is
   indexed as if from scratch, one whose blob is not stays as it was, an
   indexed message without an entry disappears, and anything else stays.
   */
  lemma {:induction false} RebuiltAt(t: Tables, account: string, entries: seq<Entry>, source: Source, key: Key)
    requires Valid(t) && Distinct(entries)
    ensures forall i :: 0 <= i < |entries| && key == Key(account, entries[i].handle) ==>
              At(Rebuilt(t, account, entries, source), key) ==
              match source.read(entries[i].blobPath)
              case Some(data) => Fresh(account, entries[i], data, source)
              case None => At(t, key)
    ensures key.account == account && key.messageId !in Handles(entries) ==>
              At(Rebuilt(t, account, entries, source), key) ==
              if key in t.rows then Indexed(None, {}, []) else At(t, key)
    ensures key.account != account ==> At(Rebuilt(t, account, entries, source), key) == At(t, key)
  {
    var indexed := IndexAll(t, account, entries, source);
    IndexAllValid(t, account, entries, source);
    IndexAllAt(t, account, entries, source, key);
    PrunedAt(indexed, account, Handles(entries), key);
    assert key in t.rows <==> At(t, key).row.Some?;
    assert key in indexed.rows <==> At(indexed, key).row.Some?;
  }

  // ----- theorems -----

  ghost predicate AllReadable(entries: seq<Entry>, source: Source) {
    forall i :: 0 <= i < |entries| ==> source.read(entries[i].blobPath).Some?
  }

  /** Rows, links and the documents of active messages are what recomputing from the archive gives. */
  ghost predicate Refines(t: Tables, account: string, entries: seq<Entry>, source: Source) {
    && (forall i :: 0 <= i < |entries| ==>
          source.read(entries[i].blobPath).Some? &&
          At(t, Key(account, entries[i].handle)) ==
            Fresh(account, entries[i], source.read(entries[i].blobPath).value, source))
    && (forall key :: key in t.rows && key.account == account ==> key.messageId in Handles(entries))
  }

  /** A rebuild without read errors leaves the recomputed index, whatever was there before. */
  lemma {:induction false} RebuildRefinesRecomputation(t: Tables, account: string, entries: seq<Entry>, source: Source)
    requires Valid(t) && Distinct(entries) && AllReadable(entries, source)
    ensures Refines(Rebuilt(t, account, entries, source), account, entries, source)
    ensures Valid(Rebuilt(t, account, entries, source))
    ensures
      var t' := Rebuilt(t, account, entries, source);
      forall i :: 0 <= i < |entries| ==>
        var key := Key(account, entries[i].handle);
        && key in t'.rows && t'.rows[key] == entries[i].contentId
        && LinksAt(t', key) == source.linksOf(source.read(entries[i].blobPath).value)
        && DocsAt(t'.docs, key) == [SearchDoc(key, entries[i].doc)]
  {
    IndexAllValid(t, account, entries, source);
    forall i | 0 <= i < |entries|
      ensures At(Rebuilt(t, account, entries, source), Key(account, entries[i].handle)) ==
              Fresh(account, entries[i], source.read(entries[i].blobPath).value, source)
    {
      RebuiltAt(t, account, entries, source, Key(account, entries[i].handle));
    }
  }

  /** No search document of the account belongs to a message without an active entry. */
  ghost predicate NoOrphanDocs(t: Tables, account: string, entries: seq<Entry>) {
    forall d :: d in t.docs && d.key.account == account ==> d.key.messageId in Handles(entries)
  }

  lemma {:induction false} DocsAtHas(docs: seq<SearchDoc>, d: SearchDoc)
    ensures d in docs <==> d in DocsAt(docs, d.key)
  {
    FilterHas(docs, Of(d.key), d);
  }

  /**
   The documents of messages that are gone are another matter: pruning walks
   the index rows, and a row deleted by cascade (a hard expunge) left its
   document behind. A rebuild clears every orphan exactly when each orphan
   still had its index row.
   */
  lemma {:induction false} OrphanDocsSurviveIffUnindexed(
      t: Tables, account: string, entries: seq<Entry>, source: Source)
    requires Valid(t) && Distinct(entries)
    ensures NoOrphanDocs(Rebuilt(t, account, entries, source), account, entries) <==>
              forall d :: d in t.docs && d.key.account == account && d.key.messageId !in Handles(entries) ==>
                d.key in t.rows
  {
    var t' := Rebuilt(t, account, entries, source);
    forall d: SearchDoc | d.key.account == account && d.key.messageId !in Handles(entries)
      ensures d in t'.docs <==> d in t.docs && d.key !in t.rows
    {
      RebuiltAt(t, account, entries, source, d.key);
      DocsAtHas(t.docs, d);
      DocsAtHas(t'.docs, d);
    }
  }

  /** Such an orphan is left by expunging any indexed message: its row and links go, its document stays. */
  lemma {:induction false} ExpungeLeavesOrphan(t: Tables, key: Key, d: SearchDoc)
    requires Valid(t) && key in t.rows && d in t.docs && d.key == key
    ensures
      var expunged := t.(rows := t.rows - {key}, links := t.links - {key});
      && Valid(expunged)
      && forall entries: seq<Entry>, source :: Distinct(entries) && key.messageId !in Handles(entries) ==>
           !NoOrphanDocs(Rebuilt(expunged, key.account, entries, source), key.account, entries)
  {
    var expunged := t.(rows := t.rows - {key}, links := t.links - {key});
    forall entries: seq<Entry>, source | Distinct(entries) && key.messageId !in Handles(entries)
      ensures !NoOrphanDocs(Rebuilt(expunged, key.account, entries, source), key.account, entries)
    {
      OrphanDocsSurviveIffUnindexed(expunged, key.account, entries, source);
    }
  }

  // ----- counting -----

  predicate Reusable(t: Tables, account: string, e: Entry) {
    Key(account, e.handle) in t.rows && t.rows[Key(account, e.handle)] == e.contentId
  }

  function CountReused(t: Tables, account: string, entries: seq<Entry>): nat {
    if entries == [] then 0
    else
      var n := |entries| - 1;
      CountReused(t, account, entries[..n]) + (if Reusable(t, account, entries[n]) then 1 else 0)
  }

  function CountUnreadable(entries: seq<Entry>, source: Source): nat {
    if entries == [] then 0
    else
      var n := |entries| - 1;
      CountUnreadable(entries[..n], source) + (if source.read(entries[n].blobPath).None? then 1 else 0)
  }

  function StaleKeys(t: Tables, account: string, seen: set<string>): set<Key> {
    set key | key in t.rows && Stale(t, account, seen, key)
  }

  /** The positions of the entries whose row was indexed from their content. */
  function Unchanged(t: Tables, account: string, entries: seq<Entry>): set<nat> {
    set i: nat | i < |entries| && Key(account, entries[i].handle) in t.rows &&
      t.rows[Key(account, entries[i].handle)] == entries[i].contentId
  }

  /** The positions of the entries whose blob cannot be read. */
  function Unreadable(entries: seq<Entry>, source: Source): set<nat> {
    set i: nat | i < |entries| && source.read(entries[i].blobPath).None?
  }

  lemma {:induction false} ReusedAre(t: Tables, account: string, entries: seq<Entry>)
    ensures CountReused(t, account, entries) == |Unchanged(t, account, entries)|
  {
    if entries != [] {
      var n := |entries| - 1;
      var before := Unchanged(t, account, entries[..n]);
      ReusedAre(t, account, entries[..n]);
      forall i: nat
        ensures i in Unchanged(t, account, entries) <==> i in before || (i == n && Reusable(t, account, entries[n]))
      {
        assert i < n ==> entries[..n][i] == entries[i];
      }
      assert Unchanged(t, account, entries) == before + if Reusable(t, account, entries[n]) then {n} else {};
    }
  }

  lemma {:induction false} UnreadableAre(entries: seq<Entry>, source: Source)
    ensures CountUnreadable(entries, source) == |Unreadable(entries, source)|
  {
    if entries != [] {
      var n := |entries| - 1;
      var before, fails := Unreadable(entries[..n], source), source.read(entries[n].blobPath).None?;
      UnreadableAre(entries[..n], source);
      forall i: nat
        ensures i in Unreadable(entries, source) <==> i in before || (i == n && fails)
      {
        assert i < n ==> entries[..n][i] == entries[i];
      }
      assert Unreadable(entries, source) == before + if fails then {n} else {};
    }
  }

  lemma {:induction false} AllReused(t: Tables, account: string, entries: seq<Entry>)
    requires forall i :: 0 <= i < |entries| ==> Reusable(t, account, entries[i])
    ensures CountReused(t, account, entries) == |entries|
  {
    if entries != [] {
      AllReused(t, account, entries[..|entries| - 1]);
    }
  }

  /** A second rebuild at once reports everything reused and nothing stale, and changes no message's index. */
  lemma {:induction false} SecondRebuildReusesAll(
      t: Tables, account: string, entries: seq<Entry>, source: Source, key: Key)
    requires Valid(t) && Distinct(entries) && AllReadable(entries, source)
    ensures
      var t' := Rebuilt(t, account, entries, source);
      && CountReused(t', account, entries) == |entries|
      && StaleKeys(IndexAll(t', account, entries, source), account, Handles(entries)) == {}
      && At(Rebuilt(t', account, entries, source), key) == At(t', key)
  {
    var t' := Rebuilt(t, account, entries, source);
    RebuildRefinesRecomputation(t, account, entries, source);
    forall i | 0 <= i < |entries|
      ensures Reusable(t', account, entries[i])
    {
      assert At(t', Key(account, entries[i].handle)).row == Some(entries[i].contentId);
    }
    AllReused(t', account, entries);
    forall k
      ensures !Stale(IndexAll(t', account, entries, source), account, Handles(entries), k)
    {
      IndexAllAt(t', account, entries, source, k);
      assert k in t'.rows <==> At(t', k).row.Some?;
      assert k in IndexAll(t', account, entries, source).rows <==>
        At(IndexAll(t', account, entries, source), k).row.Some?;
    }
    RebuiltAt(t, account, entries, source, key);
    RebuiltAt(t', account, entries, source, key);
    assert key in t'.rows <==> At(t', key).row.Some?;
    if key.account == account && key.messageId in Handles(entries) {
      var i :| 0 <= i < |entries| && entries[i].handle == key.messageId;
      assert key == Key(account, entries[i].handle);
    }
  }

  // ----- search -----

  datatype MessageRow = MessageRow(account: string, deleted: bool)

  /** The tables a search joins, the full-text match and the filters on the joined message. */
  datatype Search = Search(
    account: string, messages: map<string, MessageRow>, matches: Doc -> bool, passes: string -> bool)
  {
    predicate Counts(d: SearchDoc) {
      && d.key.account == account && matches(d.doc)
      && d.key.messageId in messages && messages[d.key.messageId].account == account
      && !messages[d.key.messageId].deleted
      && passes(d.key.messageId)
    }
  }

  function CountMatches(t: Tables, q: Search): nat {
    |Filter(t.docs, Hits((d: SearchDoc) => q.Counts(d)))|
  }

  /** The rows of an unlimited page: the page query also joins the index rows. */
  function PageMatches(t: Tables, q: Search): seq<SearchDoc> {
    Filter(t.docs, Hits((d: SearchDoc) => q.Counts(d) && d.key in t.rows))
  }

  /** A page holds the matching documents of active messages of the account that pass the filters and are indexed. */
  lemma {:induction false} PageHolds(t: Tables, q: Search, d: SearchDoc)
    ensures d in PageMatches(t, q) <==>
              && d in t.docs && d.key.account == q.account && q.matches(d.doc) && d.key in t.rows
              && d.key.messageId in q.messages && q.messages[d.key.messageId] == MessageRow(q.account, false)
              && q.passes(d.key.messageId)
  {
    FilterHas(t.docs, Hits((d: SearchDoc) => q.Counts(d) && d.key in t.rows), d);
  }

  lemma {:induction false} FilterShrinks(docs: seq<SearchDoc>, wide: Where, narrow: Where)
    requires forall d: SearchDoc :: narrow.Holds(d) ==> wide.Holds(d)
    ensures |Filter(docs, narrow)| <= |Filter(docs, wide)|
    ensures |Filter(docs, narrow)| == |Filter(docs, wide)| <==>
              forall d :: d in docs && wide.Holds(d) ==> narrow.Holds(d)
  {
    if docs != [] {
      FilterShrinks(docs[1..], wide, narrow);
      assert docs == [docs[0]] + docs[1..];
      assert docs[0] in docs;
    }
  }

  /** The reported total is the size of the unlimited page exactly when every counted document has its index row. */
  lemma {:induction false} CountIsPageIffIndexed(t: Tables, q: Search)
    ensures CountMatches(t, q) == |PageMatches(t, q)| <==> forall d :: d in t.docs && q.Counts(d) ==> d.key in t.rows
    ensures |PageMatches(t, q)| <= CountMatches(t, q)
  {
    FilterShrinks(t.docs, Hits((d: SearchDoc) => q.Counts(d)), Hits((d: SearchDoc) => q.Counts(d) && d.key in t.rows));
  }

  /** After a rebuild without read errors it always is, orphaned documents or not. */
  lemma {:induction false} CountIsPageAfterRebuild(
      t: Tables, account: string, entries: seq<Entry>, source: Source, q: Search)
    requires Valid(t) && Distinct(entries) && AllReadable(entries, source) && q.account == account
    requires forall id :: id in q.messages && q.messages[id].account == account && !q.messages[id].deleted ==>
               id in Handles(entries)
    ensures CountMatches(Rebuilt(t, account, entries, source), q) ==
              |PageMatches(Rebuilt(t, account, entries, source), q)|
  {
    var t' := Rebuilt(t, account, entries, source);
    RebuildRefinesRecomputation(t, account, entries, source);
    forall d | d in t'.docs && q.Counts(d)
      ensures d.key in t'.rows
    {
      var i :| 0 <= i < |entries| && entries[i].handle == d.key.messageId;
      assert At(t', Key(account, entries[i].handle)).row.Some?;
    }
    CountIsPageIffIndexed(t', q);
  }

  // ----- the rebuild, in place -----

  class EmailIndex {
    var tables: Tables

    constructor (tables: Tables)
      ensures this.tables == tables
    {
      this.tables := tables;
    }

    /** Everything happens in one transaction: dying before the commit changes nothing. */
    method Rebuild(account: string, entries: seq<Entry>, source: Source, uninterrupted: bool) returns (r: Result<Stats>)
      requires Valid(tables) && Distinct(entries)
      modifies this
      ensures r.Err? ==> tables == old(tables)
      ensures uninterrupted ==> r.Ok?
      ensures r.Ok? ==> tables == Rebuilt(old(tables), account, entries, source)
      ensures r.Ok? ==> r.value.scanned == |entries| == r.value.updated + r.value.reused
      ensures r.Ok? ==> r.value.reused == CountReused(old(tables), account, entries)
      ensures r.Ok? ==> r.value.errors == CountUnreadable(entries, source)
      ensures r.Ok? ==>
                r.value.stale == |StaleKeys(IndexAll(old(tables), account, entries, source), account, Handles(entries))|
    {
      var t := tables;
      var seen: set<string> := {};
      var updated, reused, errors := 0, 0, 0;
      for i := 0 to |entries|
        invariant tables == old(tables)
        invariant t == IndexAll(tables, account, entries[..i], source)
        invariant seen == Handles(entries[..i])
        invariant updated + reused == i && reused == CountReused(tables, account, entries[..i])
        invariant errors == CountUnreadable(entries[..i], source)
      {
        assert entries[..i + 1][..i] == entries[..i];
        var e := entries[i];
        seen := seen + {e.handle};
        HandlesGrow(entries, i);
        ReusableStays(tables, account, entries, i, source);
        if Reusable(t, account, e) {
          reused := reused + 1;
        } else {
          updated := updated + 1;
        }
        if source.read(e.blobPath).None? {
          errors := errors + 1;
        }
        t := IndexEntry(t, account, e, source);
      }
      assert entries[..|entries|] == entries;
      var pruned, stale := PruneStale(t, account, seen);
      var died := Fails(uninterrupted);
      if died {
        return Err;
      }
      tables := pruned;
      return Ok(Stats(|entries|, updated, reused, stale, errors));
    }

    /** The loop over the index rows that have no entry any more. */
    static method PruneStale(t: Tables, account: string, seen: set<string>) returns (pruned: Tables, stale: nat)
      ensures pruned == Pruned(t, account, seen)
      ensures stale == |StaleKeys(t, account, seen)|
    {
      pruned, stale := t, 0;
      var todo := StaleKeys(t, account, seen);
      ghost var all := todo;
      assert Without(t, all - todo) == t by {
        assert all - todo == {};
        assert t.rows - {} == t.rows && t.links - {} == t.links;
        FilterAll(t.docs, NotIn({}));
      }
      while todo != {}
        invariant todo <= all && pruned == Without(t, all - todo) && stale + |todo| == |all|
        decreases |todo|
      {
        var key :| key in todo;
        pruned := DeleteKey(pruned, key);
        WithoutOneMore(t, all, todo, key);
        todo, stale := todo - {key}, stale + 1;
      }
      assert all - todo == all;
      PrunedIsWithout(t, account, seen);
    }
  }

  /** Deletes one index row, its links and its search documents. */
  function DeleteKey(t: Tables, key: Key): Tables {
    Tables(t.rows - {key}, t.links - {key}, DocsExcept(t.docs, key))
  }

  function Without(t: Tables, gone: set<Key>): Tables {
    Tables(t.rows - gone, t.links - gone, Filter(t.docs, NotIn(gone)))
  }

  lemma {:induction false} WithoutOneMore(t: Tables, all: set<Key>, todo: set<Key>, key: Key)
    requires key in todo && todo <= all
    ensures Without(t, all - (todo - {key})) == DeleteKey(Without(t, all - todo), key)
  {
    var gone := all - todo;
    assert all - (todo - {key}) == gone + {key};
    FilterBoth(t.docs, NotIn(gone), NotOf(key), NotIn(gone + {key}));
    assert t.rows - (gone + {key}) == t.rows - gone - {key};
    assert t.links - (gone + {key}) == t.links - gone - {key};
  }

  lemma {:induction false} PrunedIsWithout(t: Tables, account: string, seen: set<string>)
    ensures Pruned(t, account, seen) == Without(t, StaleKeys(t, account, seen))
  {
    var gone := StaleKeys(t, account, seen);
    FilterSame(t.docs, NotStale(t, account, seen), NotIn(gone));
    assert Pruned(t, account, seen).rows == t.rows - gone;
    assert Pruned(t, account, seen).links == t.links - gone;
  }

  lemma {:induction false} FilterAll(docs: seq<SearchDoc>, keep: Where)
    requires forall d :: d in docs ==> keep.Holds(d)
    ensures Filter(docs, keep) == docs
  {
    if docs != [] {
      assert docs[0] in docs;
      FilterAll(docs[1..], keep);
    }
  }

  lemma {:induction false} HandlesGrow(entries: seq<Entry>, i: nat)
    requires i < |entries|
    ensures Handles(entries[..i + 1]) == Handles(entries[..i]) + {entries[i].handle}
  {
    forall h
      ensures h in Handles(entries[..i + 1]) <==> h in Handles(entries[..i]) || h == entries[i].handle
    {
      if h in Handles(entries[..i]) {
        var k :| 0 <= k < i && entries[..i][k].handle == h;
        assert entries[..i + 1][k].handle == h;
      }
      assert entries[..i + 1][i].handle == entries[i].handle;
      if h in Handles(entries[..i + 1]) && h != entries[i].handle {
        var k :| 0 <= k < i + 1 && entries[..i + 1][k].handle == h;
        assert entries[..i][k].handle == h;
      }
    }
  }

  /** Indexing earlier entries does not change whether a later one can be reused. */
  lemma {:induction false} ReusableStays(t: Tables, account: string, entries: seq<Entry>, i: nat, source: Source)
    requires Distinct(entries) && i < |entries|
    ensures Reusable(IndexAll(t, account, entries[..i], source), account, entries[i]) <==>
              Reusable(t, account, entries[i])
  {
    var key := Key(account, entries[i].handle);
    IndexAllAt(t, account, entries[..i], source, key);
    assert key.messageId !in Handles(entries[..i]);
    var before, after := At(t, key), At(IndexAll(t, account, entries[..i], source), key);
    assert before == after;
    assert key in t.rows <==> before.row.Some?;
    assert key in IndexAll(t, account, entries[..i], source).rows <==> after.row.Some?;
  }
}
