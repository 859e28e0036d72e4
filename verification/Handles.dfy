/**
 Short display handles, how a token typed by the user resolves to a message,
 and the handle cache of one `Storage` value.
 */
module Handles {
  import opened Basics

  const SHORT_HANDLE_LEN: nat := 8

  datatype Row = Row(contentId: string, deleted: bool)

  /** The messages table, by message id. */
  type Rows = map<string, Row>

  predicate Active(rows: Rows, id: string) {
    id in rows && !rows[id].deleted
  }

  predicate IsHex(s: string) {
    forall i :: 0 <= i < |s| ==> '0' <= s[i] <= '9' || 'a' <= s[i] <= 'f'
  }

  predicate StartsWith(s: string, prefix: string) {
    |prefix| <= |s| && s[..|prefix|] == prefix
  }

  /** The ids the program generates: "msg_" and 24 hex digits, or "proton-" and 16. */
  predicate Generated(id: string) {
    || (|id| == 28 && StartsWith(id, "msg_") && IsHex(id[4..]))
    || (|id| == 23 && StartsWith(id, "proton-") && IsHex(id[7..]))
  }

  ghost predicate GeneratedRows(rows: Rows) {
    forall id :: id in rows ==> Generated(id) && IsHex(rows[id].contentId)
  }

  function ShortHandle(id: string): string {
    if StartsWith(id, "msg_") then
      var basis := id[4..];
      if |basis| < SHORT_HANDLE_LEN then basis else basis[..SHORT_HANDLE_LEN]
    else
      id
  }

  /** The handle of a generated id is its first eight hex digits, or the whole id if it is a Proton one. */
  lemma {:induction false} HandleOfGenerated(id: string)
    requires Generated(id)
    ensures if StartsWith(id, "msg_") then |ShortHandle(id)| == 8 && StartsWith(id, "msg_" + ShortHandle(id))
            else ShortHandle(id) == id
  {
    if StartsWith(id, "msg_") {
      assert id[..12] == id[..4] + id[4..12] && id[4..][..8] == id[4..12];
      assert id[..4][0] == 'm' && "proton-"[0] == 'p';
    }
  }

  // ----- resolving a token -----

  datatype Resolution = Found(id: string) | Ambiguous | NotFound

  /** SQL LIKE: '%' matches any run, '_' any character, letters in either case. */
  predicate Like(s: string, pattern: string)
    decreases |pattern|, |s|
  {
    if pattern == "" then s == ""
    else if pattern[0] == '%' then Like(s, pattern[1..]) || (s != "" && Like(s[1..], pattern))
    else s != "" && (pattern[0] == '_' || Lower(pattern[0]) == Lower(s[0])) && Like(s[1..], pattern[1..])
  }

  lemma {:induction false} LikeAnything(s: string)
    ensures Like(s, "%")
  {
    assert "%"[1..] == "";
    if s != "" {
      LikeAnything(s[1..]);
    }
  }

  /** A token without wildcards is a prefix, letters in either case. */
  lemma {:induction false} LikeIsPrefix(s: string, token: string)
    requires '%' !in token && '_' !in token
    ensures Like(s, token + "%") <==>
              |token| <= |s| && forall i :: 0 <= i < |token| ==> Lower(s[i]) == Lower(token[i])
    decreases |token|
  {
    if token == "" {
      assert token + "%" == "%";
      LikeAnything(s);
    } else {
      assert (token + "%")[1..] == token[1..] + "%" && token[0] in token;
      if s != "" {
        LikeIsPrefix(s[1..], token[1..]);
        assert forall i :: 0 < i < |token| && i < |s| ==> s[1..][i - 1] == s[i] && token[1..][i - 1] == token[i];
      }
    }
  }

  function HandleMatches(rows: Rows, token: string): set<string> {
    set id | id in rows && Active(rows, id) && ShortHandle(id) == token
  }

  function PrefixMatches(rows: Rows, token: string): set<string> {
    set id | id in rows && Active(rows, id) && StartsWith(id, token)
  }

  function ContentMatches(rows: Rows, token: string): set<string> {
    set id | id in rows && Active(rows, id) && Like(rows[id].contentId, token + "%")
  }

  function Only(ids: set<string>): string
    requires |ids| == 1
  {
    OneElement(ids);
    var id :| id in ids; id
  }

  lemma {:induction false} OneElement(ids: set<string>)
    requires |ids| == 1
    ensures exists id :: id in ids
    ensures forall x, y :: x in ids && y in ids ==> x == y
  {
    var id :| id in ids;
    assert |ids - {id}| == 0;
    assert ids == {id} + (ids - {id});
  }

  /** A full id, then a displayed handle, then a prefix of an id, then a prefix of a content id. */
  function Resolve(rows: Rows, token: string): Resolution {
    if Active(rows, token) then Found(token)
    else if HandleMatches(rows, token) != {} then Sole(HandleMatches(rows, token))
    else if PrefixMatches(rows, token) != {} then Sole(PrefixMatches(rows, token))
    else if ContentMatches(rows, token) != {} then Sole(ContentMatches(rows, token))
    else NotFound
  }

  function Sole(ids: set<string>): Resolution {
    if |ids| == 1 then Found(Only(ids)) else Ambiguous
  }

  /** How an active message may answer to a token: as its id, its handle, the start of its id or of its content id. */
  predicate Answers(rows: Rows, level: nat, token: string, id: string) {
    && id in rows && !rows[id].deleted
    && match level
       case 0 => id == token
       case 1 => ShortHandle(id) == token
       case 2 => |token| <= |id| && id[..|token|] == token
       case 3 => Like(rows[id].contentId, token + "%")
       case _ => false
  }

  /** No message answers at a level before this one, and some message answers at it. */
  ghost predicate FirstAnswered(rows: Rows, level: nat, token: string) {
    && (exists id :: Answers(rows, level, token, id))
    && forall before: nat, id :: before < level ==> !Answers(rows, before, token, id)
  }

  lemma {:induction false} SoleIs(ids: set<string>, id: string)
    requires ids != {}
    ensures Sole(ids) == Found(id) <==> id in ids && forall other :: other in ids ==> other == id
  {
    if id in ids && forall other :: other in ids ==> other == id {
      assert ids == {id};
    }
    if |ids| == 1 {
      OneElement(ids);
    }
  }

  /**
   A token stands for the one message that answers to it at the first of the
   four levels at which any does; if several do there it is ambiguous, and
   nothing is found only if none does at any.
   */
  lemma {:induction false} ResolvesAtFirstLevel(rows: Rows, token: string, level: nat, id: string)
    ensures Resolve(rows, token) == NotFound <==> forall l: nat, x :: !Answers(rows, l, token, x)
    ensures FirstAnswered(rows, level, token) ==>
              && Resolve(rows, token) != NotFound
              && (Resolve(rows, token) == Found(id) <==>
                    Answers(rows, level, token, id) && forall x :: Answers(rows, level, token, x) ==> x == id)
  {
    LevelsAre(rows, token);
    if HandleMatches(rows, token) != {} {
      SoleIs(HandleMatches(rows, token), id);
    }
    if PrefixMatches(rows, token) != {} {
      SoleIs(PrefixMatches(rows, token), id);
    }
    if ContentMatches(rows, token) != {} {
      SoleIs(ContentMatches(rows, token), id);
    }
  }

  lemma {:induction false} LevelsAre(rows: Rows, token: string)
    ensures Active(rows, token) <==> exists x :: Answers(rows, 0, token, x)
    ensures forall x :: x in HandleMatches(rows, token) <==> Answers(rows, 1, token, x)
    ensures forall x :: x in PrefixMatches(rows, token) <==> Answers(rows, 2, token, x)
    ensures forall x :: x in ContentMatches(rows, token) <==> Answers(rows, 3, token, x)
    ensures forall l: nat, x :: Answers(rows, l, token, x) ==> l < 4
  {
    if Active(rows, token) {
      assert Answers(rows, 0, token, token);
    }
  }

  /**
   A displayed handle resolves to its own message, or is reported ambiguous,
   and never to another message; it is ambiguous exactly when another active
   message shows the same handle.
   */
  lemma {:induction false} DisplayedHandleResolves(rows: Rows, id: string)
    requires GeneratedRows(rows) && Active(rows, id)
    ensures Resolve(rows, ShortHandle(id)) == Found(id) || Resolve(rows, ShortHandle(id)) == Ambiguous
    ensures Resolve(rows, ShortHandle(id)) == Ambiguous <==>
              exists other :: Active(rows, other) && other != id && ShortHandle(other) == ShortHandle(id)
  {
    var token := ShortHandle(id);
    var matches := HandleMatches(rows, token);
    assert id in matches;
    if StartsWith(id, "msg_") {
      assert |token| == 8;
      assert !Active(rows, token);
    } else {
      forall other | Active(rows, other) && other != id
        ensures ShortHandle(other) != id
      {
        assert StartsWith(other, "msg_") ==> |ShortHandle(other)| == 8;
      }
    }
    if |matches| == 1 {
      OneElement(matches);
    } else if forall other :: other in matches ==> other == id {
      assert matches == {id};
    }
    forall other | Active(rows, other) && ShortHandle(other) == token
      ensures other in matches
    {
    }
  }

  /** A full id of an active message always resolves to itself. */
  lemma {:induction false} FullIdResolves(rows: Rows, id: string)
    requires Active(rows, id)
    ensures Resolve(rows, id) == Found(id)
  {
  }

  lemma {:induction false} GeneratedPrefixIsEqual(other: string, id: string)
    requires Generated(other) && Generated(id)
    ensures StartsWith(other, id) <==> other == id
  {
    assert |other| == |id| ==> other[..|id|] == other;
    assert "msg_"[0] == 'm' && "proton-"[0] == 'p';
    assert other[0] == if |other| == 28 then 'm' else 'p';
    assert id[0] == if |id| == 28 then 'm' else 'p';
    assert StartsWith(other, id) ==> id[0] == other[..|id|][0];
  }

  /** A deleted message is displayed by its full id, and that resolves to nothing rather than to a live message. */
  lemma {:induction false} DeletedIdResolvesToNothing(rows: Rows, id: string)
    requires GeneratedRows(rows) && id in rows && rows[id].deleted
    ensures Resolve(rows, id) == NotFound
  {
    forall other | Active(rows, other)
      ensures ShortHandle(other) != id && !StartsWith(other, id)
    {
      assert StartsWith(other, "msg_") ==> |ShortHandle(other)| == 8;
      GeneratedPrefixIsEqual(other, id);
    }
    forall other | Active(rows, other)
      ensures !Like(rows[other].contentId, id + "%")
    {
      assert (id + "%")[0] == id[0];
      var content := rows[other].contentId;
      assert content != "" ==> Lower(content[0]) == content[0];
    }
    assert HandleMatches(rows, id) == {} && PrefixMatches(rows, id) == {} && ContentMatches(rows, id) == {};
  }

  // ----- the cache -----

  function HandleMap(rows: Rows): map<string, string> {
    map id | id in rows && Active(rows, id) :: ShortHandle(id)
  }

  /** What is displayed for a message: its handle while it is active, else its full id. */
  function Displayed(rows: Rows, id: string): string {
    if Active(rows, id) then ShortHandle(id) else id
  }

  /** One `Storage` value: every write through it that affects messages drops the cached map. */
  class Storage {
    var rows: Rows
    var cache: Option<map<string, string>>

    ghost predicate Valid()
      reads this
    {
      cache == None || cache == Some(HandleMap(rows))
    }

    constructor (rows: Rows)
      ensures Valid() && this.rows == rows
    {
      this.rows, cache := rows, None;
    }

    method InvalidateHandleCache()
      modifies this`cache
      ensures cache == None
    {
      cache := None;
    }

    /** Ingest revives a deleted row of the same id. A failed transaction changes neither rows nor cache. */
    method Ingest(id: string, contentId: string, uninterrupted: bool) returns (ok: bool)
      requires Valid()
      modifies this
      ensures Valid()
      ensures rows == if ok then old(rows)[id := Row(contentId, false)] else old(rows)
      ensures uninterrupted ==> ok
    {
      var failed := Fails(uninterrupted);
      if failed {
        return false;
      }
      rows := rows[id := Row(contentId, false)];
      InvalidateHandleCache();
      return true;
    }

    method MarkMessageDeleted(id: string) returns (changed: bool)
      requires Valid()
      modifies this
      ensures Valid()
      ensures changed <==> Active(old(rows), id)
      ensures rows == if changed then old(rows)[id := old(rows)[id].(deleted := true)] else old(rows)
    {
      if !Active(rows, id) {
        return false;
      }
      rows := rows[id := rows[id].(deleted := true)];
      InvalidateHandleCache();
      return true;
    }

    method DisplayHandle(id: string) returns (handle: string)
      requires Valid()
      modifies this`cache
      ensures Valid() && rows == old(rows)
      ensures handle == Displayed(rows, id)
    {
      if cache.None? {
        cache := Some(HandleMap(rows));
      }
      if id in cache.value {
        return cache.value[id];
      }
      return id;
    }

    /** `decorate_handles`: every listed message gets what `DisplayHandle` would show. */
    method DecorateHandles(ids: seq<string>) returns (handles: seq<string>)
      requires Valid()
      modifies this`cache
      ensures Valid() && rows == old(rows)
      ensures |handles| == |ids| && forall i :: 0 <= i < |ids| ==> handles[i] == Displayed(rows, ids[i])
    {
      handles := [];
      for i := 0 to |ids|
        invariant Valid() && rows == old(rows)
        invariant |handles| == i && forall k :: 0 <= k < i ==> handles[k] == Displayed(rows, ids[k])
      {
        var handle := DisplayHandle(ids[i]);
        handles := handles + [handle];
      }
    }
  }
}
