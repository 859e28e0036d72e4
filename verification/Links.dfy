/**
 The thread links of a message: its own Message-ID and those it refers to,
 and why a rebuilt index is one the thread walk is exact on.
 */
module Links {
  import opened Basics
  import opened Chunker
  import IndexRebuild
  import Threads

  // ----- normal forms of Message-IDs -----

  datatype Trim = Blanks | Char(c: char) {
    predicate Drops(x: char) {
      match this
      case Blanks => IsWhitespace(x)
      case Char(c) => x == c
    }
  }

  function TrimStart(s: string, cut: Trim): (r: string)
    ensures |r| <= |s|
    ensures r == [] || !cut.Drops(r[0])
    ensures |r| == |s| <==> r == s
    ensures r == s <==> s == [] || !cut.Drops(s[0])
  {
    if s != [] && cut.Drops(s[0]) then TrimStart(s[1..], cut) else s
  }

  function TrimEnd(s: string, cut: Trim): (r: string)
    ensures |r| <= |s| && (r != [] ==> r[0] == s[0])
    ensures r == [] || !cut.Drops(r[|r| - 1])
    ensures |r| == |s| <==> r == s
    ensures r == s <==> s == [] || !cut.Drops(s[|s| - 1])
  {
    if s != [] && cut.Drops(s[|s| - 1]) then TrimEnd(s[..|s| - 1], cut) else s
  }

  function Strip(s: string, front: Trim, back: Trim): (r: string)
    ensures |r| <= |s| && (|r| == |s| <==> r == s)
    ensures r == [] || (!front.Drops(r[0]) && !back.Drops(r[|r| - 1]))
    ensures r == s <==> s == [] || (!front.Drops(s[0]) && !back.Drops(s[|s| - 1]))
  {
    TrimEnd(TrimStart(s, front), back)
  }

  predicate Unbracketed(s: string) {
    s == [] || (s[0] != '<' && s[|s| - 1] != '>')
  }

  predicate BlankFree(s: string) {
    s == [] || (!IsWhitespace(s[0]) && !IsWhitespace(s[|s| - 1]))
  }

  function Bare(s: string): (r: string)
    ensures Unbracketed(r) && |r| <= |s| && (|r| == |s| <==> r == s)
    ensures Unbracketed(s) ==> (r == s <==> BlankFree(s))
  {
    Strip(Strip(s, Blanks, Blanks), Char('<'), Char('>'))
  }

  function Lowered(s: string): (r: string)
    ensures |r| == |s| && forall i :: 0 <= i < |s| ==> r[i] == Lower(s[i])
  {
    seq(|s|, i requires 0 <= i < |s| => Lower(s[i]))
  }

  function Normalize(s: string): Option<string> {
    if Bare(s) == [] then None else Some(Lowered(Bare(s)))
  }

  lemma {:induction false} LoweredKeepsEnds(s: string)
    ensures Unbracketed(Lowered(s)) <==> Unbracketed(s)
    ensures BlankFree(Lowered(s)) <==> BlankFree(s)
    ensures Lowered(Lowered(s)) == Lowered(s)
  {
  }

  lemma {:induction false} TrimStartDrops(s: string, cut: Trim)
    ensures
      var n := |s| - |TrimStart(s, cut)|;
      TrimStart(s, cut) == s[n..] && forall i :: 0 <= i < n ==> cut.Drops(s[i])
  {
    if s != [] && cut.Drops(s[0]) {
      TrimStartDrops(s[1..], cut);
    }
  }

  lemma {:induction false} TrimEndDrops(s: string, cut: Trim)
    ensures
      var n := |TrimEnd(s, cut)|;
      TrimEnd(s, cut) == s[..n] && forall i :: n <= i < |s| ==> cut.Drops(s[i])
  {
    if s != [] && cut.Drops(s[|s| - 1]) {
      TrimEndDrops(s[..|s| - 1], cut);
    }
  }

  /** All of `s` from `i` up to `j` is dropped by `cut`. */
  predicate AllDropped(s: string, i: nat, j: nat, cut: Trim)
    requires i <= j <= |s|
  {
    forall k :: i <= k < j ==> cut.Drops(s[k])
  }

  lemma {:induction false} StripWindow(s: string, front: Trim, back: Trim) returns (i: nat, j: nat)
    ensures i <= j <= |s| && Strip(s, front, back) == s[i..j]
    ensures AllDropped(s, 0, i, front) && AllDropped(s, j, |s|, back)
  {
    var start := TrimStart(s, front);
    TrimStartDrops(s, front);
    TrimEndDrops(start, back);
    i, j := |s| - |start|, |s| - |start| + |TrimEnd(start, back)|;
  }

  /** Where the bare id lies in `s`: inside brackets from b to e, inside blanks from p to q. */
  lemma {:induction false} BareWindow(s: string) returns (p: nat, b: nat, e: nat, q: nat)
    requires Bare(s) != []
    ensures p <= b < e <= q <= |s| && Bare(s) == s[b..e]
    ensures AllDropped(s, 0, p, Blanks) && AllDropped(s, p, b, Char('<'))
    ensures AllDropped(s, e, q, Char('>')) && AllDropped(s, q, |s|, Blanks)
    ensures !IsWhitespace(s[p]) && !IsWhitespace(s[q - 1])
  {
    p, q := StripWindow(s, Blanks, Blanks);
    var i, j := StripWindow(s[p..q], Char('<'), Char('>'));
    b, e := p + i, p + j;
    SliceOfSlice(s, p, q, i, j);
    DroppedInSlice(s, p, q, 0, i, Char('<'));
    DroppedInSlice(s, p, q, j, q - p, Char('>'));
    assert s[p..q][0] == s[p] && s[p..q][q - p - 1] == s[q - 1];
  }

  lemma {:induction false} SliceOfSlice(s: string, p: nat, q: nat, i: nat, j: nat)
    requires p <= q <= |s| && i <= j <= q - p
    ensures s[p..q][i..j] == s[p + i..p + j]
  {
    assert |s[p..q][i..j]| == j - i == |s[p + i..p + j]|;
    forall k | 0 <= k < j - i
      ensures s[p..q][i..j][k] == s[p + i..p + j][k]
    {
      assert s[p..q][i..j][k] == s[p..q][i + k] == s[p + i + k];
    }
  }

  lemma {:induction false} DroppedInSlice(s: string, p: nat, q: nat, i: nat, j: nat, cut: Trim)
    requires p <= q <= |s| && i <= j <= q - p && AllDropped(s[p..q], i, j, cut)
    ensures AllDropped(s, p + i, p + j, cut)
  {
    forall k | p + i <= k < p + j
      ensures cut.Drops(s[k])
    {
      assert s[p..q][k - p] == s[k];
    }
  }

  predicate Opens(s: string, i: nat, j: nat)
    requires i <= j < |s|
  {
    AllDropped(s, 0, i, Blanks) && AllDropped(s, i, j, Char('<')) && IsWhitespace(s[j])
  }

  predicate Closes(s: string, i: nat, j: nat)
    requires i <= j < |s|
  {
    IsWhitespace(s[i]) && AllDropped(s, i + 1, j + 1, Char('>')) && AllDropped(s, j + 1, |s|, Blanks)
  }

  /** After the blanks in front, angle brackets and then a blank; or the same read from the end. */
  ghost predicate BlankInsideBrackets(s: string) {
    || (exists i, j :: 0 <= i < j < |s| && Opens(s, i, j))
    || (exists i, j :: 0 <= i < j < |s| && Closes(s, i, j))
  }

  lemma {:induction false} OpensIsFirst(s: string, p: nat, b: nat, e: nat, i: nat, j: nat)
    requires p <= b < e <= |s| && i < j < |s| && Opens(s, i, j)
    requires AllDropped(s, 0, p, Blanks) && AllDropped(s, p, b, Char('<'))
    requires !IsWhitespace(s[p]) && s[b] != '<'
    ensures IsWhitespace(s[b])
  {
    assert Char('<').Drops(s[i]);
    assert i == p && j == b;
  }

  lemma {:induction false} ClosesIsLast(s: string, p: nat, b: nat, e: nat, q: nat, i: nat, j: nat)
    requires p <= b < e <= q <= |s| && i < j < |s| && Closes(s, i, j)
    requires AllDropped(s, e, q, Char('>')) && AllDropped(s, q, |s|, Blanks)
    requires !IsWhitespace(s[q - 1]) && s[e - 1] != '>'
    ensures IsWhitespace(s[e - 1])
  {
    assert Char('>').Drops(s[j]);
    assert j + 1 == q && i == e - 1;
  }

  lemma {:induction false} BlankFreeIff(s: string)
    requires Bare(s) != []
    ensures BlankFree(Bare(s)) <==> !BlankInsideBrackets(s)
  {
    var p, b, e, q := BareWindow(s);
    var bare := Bare(s);
    assert bare[0] == s[b] && bare[|bare| - 1] == s[e - 1];
    if IsWhitespace(s[b]) {
      assert p < b && Opens(s, p, b);
    }
    if IsWhitespace(s[e - 1]) {
      assert e - 1 < q - 1 && Closes(s, e - 1, q - 1);
    }
    if i, j :| 0 <= i < j < |s| && Opens(s, i, j) {
      OpensIsFirst(s, p, b, e, i, j);
    }
    if i, j :| 0 <= i < j < |s| && Closes(s, i, j) {
      ClosesIsLast(s, p, b, e, q, i, j);
    }
  }

  lemma {:induction false} StableIffBlankFree(s: string)
    requires Normalize(s).Some?
    ensures Normalize(Normalize(s).value) == Normalize(s) <==> BlankFree(Bare(s))
  {
    var r := Normalize(s).value;
    LoweredKeepsEnds(Bare(s));
    assert Unbracketed(r);
    if !BlankFree(r) {
      assert |Bare(r)| < |r|;
    }
  }

  /**
   Normalizing a Message-ID twice gives what normalizing it once gives exactly
   when no blank stands just inside its angle brackets.
   */
  lemma {:induction false} NormalFormIsStableIff(s: string)
    requires Normalize(s).Some?
    ensures Normalize(Normalize(s).value) == Normalize(s) <==> !BlankInsideBrackets(s)
  {
    StableIffBlankFree(s);
    BlankFreeIff(s);
  }

  lemma {:induction false} StripsBrackets()
    ensures Strip("< a>", Blanks, Blanks) == "< a>" && Strip("< a>", Char('<'), Char('>')) == " a"
  {
    assert "< a>"[1..] == " a>" && " a>"[..2] == " a";
    assert TrimStart("< a>", Char('<')) == " a>" && TrimEnd(" a>", Char('>')) == " a";
  }

  lemma {:induction false} StripsBlank()
    ensures Strip(" a", Blanks, Blanks) == "a" && Strip("a", Char('<'), Char('>')) == "a"
  {
    assert " a"[1..] == "a";
    assert TrimStart(" a", Blanks) == "a";
  }

  /** "< a>" normalizes to " a", and that to "a". */
  lemma {:induction false} BlankAfterBracketIsKept()
    ensures Normalize("< a>") == Some(" a") && Normalize(" a") == Some("a")
  {
    StripsBrackets();
    StripsBlank();
    assert Lowered(" a") == " a" && Lowered("a") == "a";
  }

  /** Blanks up to p, opening brackets up to b, closing ones from e to q, and then blanks. */
  predicate Around(s: string, p: nat, b: nat, e: nat, q: nat) {
    && p <= b <= e <= q <= |s|
    && AllDropped(s, 0, p, Blanks) && AllDropped(s, p, b, Char('<'))
    && AllDropped(s, e, q, Char('>')) && AllDropped(s, q, |s|, Blanks)
  }

  /** What stands from b to e is inside brackets inside blanks. */
  ghost predicate Surrounded(s: string, b: nat, e: nat) {
    exists p, q :: Around(s, p, b, e, q)
  }

  /** The normal form is what stands inside all brackets and the blanks around them, in lower case. */
  lemma {:induction false} NormalFormIs(s: string)
    requires Normalize(s).Some?
    ensures exists b, e :: 0 <= b < e <= |s| && Surrounded(s, b, e) && s[b] != '<' && s[e - 1] != '>' &&
              AreLowerOf(Normalize(s).value, s[b..e])
  {
    var p, b, e, q := BareWindow(s);
    assert Around(s, p, b, e, q);
    assert Bare(s)[0] == s[b] && Bare(s)[e - b - 1] == s[e - 1];
  }

  /** A text without one has nothing inside them. */
  lemma {:induction false} NoNormalForm(s: string)
    requires Normalize(s).None?
    ensures exists b: nat :: Surrounded(s, b, b)
  {
    var p, q := StripWindow(s, Blanks, Blanks);
    var i, j := StripWindow(s[p..q], Char('<'), Char('>'));
    assert i == j;
    DroppedInSlice(s, p, q, 0, i, Char('<'));
    DroppedInSlice(s, p, q, j, q - p, Char('>'));
    assert Around(s, p, p + i, p + i, q) && Surrounded(s, p + i, p + i);
  }

  predicate AreLowerOf(lower: string, s: string) {
    |lower| == |s| && forall i :: 0 <= i < |s| ==>
      if 'A' <= s[i] <= 'Z' then lower[i] as int == s[i] as int + 32 else lower[i] == s[i]
  }

  // ----- the links of a message -----

  /** What the mail parser finds; a referring header is a list of texts. */
  datatype Parsed = Parsed(messageId: Option<string>, inReplyTo: seq<string>, references: seq<string>)

  type Link = IndexRebuild.Link

  function OwnId(parsed: Option<Parsed>): Option<string> {
    if parsed.Some? && parsed.value.messageId.Some? then Normalize(parsed.value.messageId.value) else None
  }

  function IdsIn(words: seq<string>): set<string> {
    set w | w in words && Normalize(w).Some? :: Normalize(w).value
  }

  /** The ids of all words in the texts of a header. */
  function IdsOfHeader(texts: seq<string>): set<string> {
    IdsIn(WordsOfTexts(texts))
  }

  /** The rows a message contributes to `message_links`. */
  function LinkSet(parsed: Option<Parsed>): set<Link> {
    match parsed
    case None => {}
    case Some(p) =>
      OwnLinks(parsed) + Tagged("in_reply_to", IdsOfHeader(p.inReplyTo)) +
        Tagged("reference", IdsOfHeader(p.references))
  }

  /** What is linked from a message: its own id, and the normal form of each word of either referring header. */
  lemma {:induction false} LinksAre(p: Parsed, id: string)
    ensures
      var links := LinkSet(Some(p));
      && (IndexRebuild.Link("message_id", id) in links <==>
            p.messageId.Some? && Normalize(p.messageId.value) == Some(id))
      && (IndexRebuild.Link("in_reply_to", id) in links <==> HasWord(p.inReplyTo, id))
      && (IndexRebuild.Link("reference", id) in links <==> HasWord(p.references, id))
      && forall x :: x in links ==> x.kind in ["message_id", "in_reply_to", "reference"]
  {
    assert "message_id"[0] == 'm' && "in_reply_to"[0] == 'i' && "reference"[0] == 'r';
    HeaderHasWords(p.inReplyTo, id);
    HeaderHasWords(p.references, id);
  }

  /** Some text of the header has a word with that normal form. */
  ghost predicate HasWord(texts: seq<string>, id: string) {
    exists i, w :: 0 <= i < |texts| && w in SplitWhitespace(texts[i]) && Normalize(w) == Some(id)
  }

  lemma {:induction false} HeaderHasWords(texts: seq<string>, id: string)
    ensures id in IdsOfHeader(texts) <==> HasWord(texts, id)
  {
    if texts != [] {
      HeaderHasWords(texts[1..], id);
      IdsConcat(SplitWhitespace(texts[0]), WordsOfTexts(texts[1..]));
      if i, w :| 0 <= i < |texts[1..]| && w in SplitWhitespace(texts[1..][i]) && Normalize(w) == Some(id) {
        assert w in SplitWhitespace(texts[i + 1]);
      }
      if i, w :| 0 <= i < |texts| && w in SplitWhitespace(texts[i]) && Normalize(w) == Some(id) {
        assert i > 0 ==> w in SplitWhitespace(texts[1..][i - 1]);
      }
    }
  }

  function Tagged(kind: string, ids: set<string>): set<Link> {
    set id | id in ids :: IndexRebuild.Link(kind, id)
  }

  function OwnLinks(parsed: Option<Parsed>): set<Link> {
    if OwnId(parsed).Some? then {IndexRebuild.Link("message_id", OwnId(parsed).value)} else {}
  }

  predicate NoRepeats(links: seq<Link>) {
    forall i, j :: 0 <= i < j < |links| ==> links[i] != links[j]
  }

  ghost predicate Lists(links: seq<Link>, set0: set<Link>) {
    NoRepeats(links) && forall x :: x in links <==> x in set0
  }

  method PushLink(links0: seq<Link>, dedupe0: set<Link>, kind: string, rfcId: string)
    returns (links: seq<Link>, dedupe: set<Link>)
    requires Lists(links0, dedupe0)
    ensures dedupe == dedupe0 + {IndexRebuild.Link(kind, rfcId)} && Lists(links, dedupe)
    ensures links0 <= links
    ensures links0 == [] && dedupe0 == {} ==> links == [IndexRebuild.Link(kind, rfcId)]
  {
    links, dedupe := links0, dedupe0;
    var link := IndexRebuild.Link(kind, rfcId);
    if link !in dedupe {
      links, dedupe := links + [link], dedupe + {link};
    }
  }

  method PushAll(links0: seq<Link>, dedupe0: set<Link>, kind: string, ids: set<string>)
    returns (links: seq<Link>, dedupe: set<Link>)
    requires Lists(links0, dedupe0)
    ensures dedupe == dedupe0 + Tagged(kind, ids) && Lists(links, dedupe)
    ensures links0 <= links
  {
    links, dedupe := links0, dedupe0;
    var rest := ids;
    assert Tagged(kind, ids - rest) == {};
    while rest != {}
      invariant rest <= ids
      invariant dedupe == dedupe0 + Tagged(kind, ids - rest) && Lists(links, dedupe)
      invariant links0 <= links
    {
      var id :| id in rest;
      assert ids - (rest - {id}) == (ids - rest) + {id};
      links, dedupe := PushLink(links, dedupe, kind, id);
      rest := rest - {id};
    }
    assert ids - rest == ids;
  }

  lemma {:induction false} IdsGrow(words: seq<string>, i: nat)
    requires i < |words|
    ensures IdsIn(words[..i + 1]) ==
              IdsIn(words[..i]) + (if Normalize(words[i]).Some? then {Normalize(words[i]).value} else {})
  {
    var before, after := words[..i], words[..i + 1];
    assert after == before + [words[i]];
    assert words[i] in after;
    assert forall w :: w in after <==> w in before || w == words[i];
  }

  method MessageIdsFromHeader(texts: seq<string>) returns (ids: set<string>)
    ensures ids == IdsOfHeader(texts)
  {
    ids := {};
    for i := 0 to |texts|
      invariant ids == IdsOfHeader(texts[..i])
    {
      var found := MessageIdsFromText(texts[i]);
      TextsGrow(texts, i);
      ids := ids + found;
    }
    assert texts[..|texts|] == texts;
  }

  method MessageIdsFromText(text: string) returns (ids: set<string>)
    ensures ids == IdsIn(SplitWhitespace(text))
  {
    ids := {};
    var words := SplitWhitespace(text);
    for i := 0 to |words|
      invariant ids == IdsIn(words[..i])
    {
      IdsGrow(words, i);
      var id := Normalize(words[i]);
      if id.Some? {
        ids := ids + {id.value};
      }
    }
    assert words[..|words|] == words;
  }

  lemma {:induction false} TextsGrow(texts: seq<string>, i: nat)
    requires i < |texts|
    ensures IdsOfHeader(texts[..i + 1]) == IdsOfHeader(texts[..i]) + IdsIn(SplitWhitespace(texts[i]))
  {
    assert texts[..i + 1] == texts[..i] + [texts[i]];
    WordsOfConcat(texts[..i], [texts[i]]);
    assert [texts[i]][1..] == [];
    assert WordsOfTexts([texts[i]]) == SplitWhitespace(texts[i]);
    IdsConcat(WordsOfTexts(texts[..i]), SplitWhitespace(texts[i]));
  }

  lemma {:induction false} IdsConcat(a: seq<string>, b: seq<string>)
    ensures IdsIn(a + b) == IdsIn(a) + IdsIn(b)
  {
    assert forall w :: w in a + b <==> w in a || w in b;
  }

  /** `links_from_raw`: each link once, the message's own id first. */
  method LinksFromRaw(parsed: Option<Parsed>) returns (links: seq<Link>)
    ensures Lists(links, LinkSet(parsed))
    ensures OwnId(parsed).Some? ==> links != [] && links[0] == IndexRebuild.Link("message_id", OwnId(parsed).value)
  {
    links := [];
    if parsed.None? {
      return;
    }
    var dedupe: set<Link> := {};
    var own := OwnId(parsed);
    if own.Some? {
      links, dedupe := PushLink(links, dedupe, "message_id", own.value);
    }
    assert dedupe == OwnLinks(parsed);
    ghost var first := links;
    var replied := MessageIdsFromHeader(parsed.value.inReplyTo);
    links, dedupe := PushAll(links, dedupe, "in_reply_to", replied);
    var referred := MessageIdsFromHeader(parsed.value.references);
    links, dedupe := PushAll(links, dedupe, "reference", referred);
    assert first <= links;
  }

  // ----- from the rebuild to the threads -----

  /** The columns a thread listing joins to an index row. */
  datatype Metadata = Metadata(date: string, rfcId: Option<string>, localRole: string, fromAddr: string)

  function RfcIds(links: set<Link>): set<string> {
    set link | link in links :: link.rfcId
  }

  /** What the thread walk of one account reads from the index tables. */
  function ThreadIndex(t: IndexRebuild.Tables, account: string, catalog: map<string, Metadata>): Threads.Index {
    Threads.Index(
      map id | id in catalog && IndexRebuild.Key(account, id) in t.rows ::
        Threads.IndexedMessage(id, catalog[id].date, catalog[id].rfcId, catalog[id].localRole, catalog[id].fromAddr),
      map id | id in catalog && IndexRebuild.Key(account, id) in t.links ::
        RfcIds(t.links[IndexRebuild.Key(account, id)]))
  }

  /** The catalog's Message-IDs and the index's links are read by one parser from the same bytes. */
  ghost predicate OneParser(
      entries: seq<IndexRebuild.Entry>, source: IndexRebuild.Source, catalog: map<string, Metadata>,
      parse: Bytes -> Option<Parsed>)
  {
    && (forall data :: source.linksOf(data) == LinkSet(parse(data)))
    && forall i :: 0 <= i < |entries| ==> OwnIdIsParsed(entries[i], source, catalog, parse)
  }

  ghost predicate OwnIdIsParsed(
      e: IndexRebuild.Entry, source: IndexRebuild.Source, catalog: map<string, Metadata>,
      parse: Bytes -> Option<Parsed>)
  {
    && e.handle in catalog
    && (source.read(e.blobPath).Some? ==> catalog[e.handle].rfcId == OwnId(parse(source.read(e.blobPath).value)))
  }

  /**
   After a rebuild without read errors every indexed message has its own
   Message-ID among its links, which is what makes thread walks exact and
   threads classes.
   */
  lemma {:induction false} RebuildReadiesThreads(
      t: IndexRebuild.Tables, account: string, entries: seq<IndexRebuild.Entry>, source: IndexRebuild.Source,
      catalog: map<string, Metadata>, parse: Bytes -> Option<Parsed>)
    requires IndexRebuild.Valid(t) && IndexRebuild.Distinct(entries) && IndexRebuild.AllReadable(entries, source)
    requires OneParser(entries, source, catalog, parse)
    ensures ThreadIndex(IndexRebuild.Rebuilt(t, account, entries, source), account, catalog).Rebuilt()
  {
    var t' := IndexRebuild.Rebuilt(t, account, entries, source);
    var index := ThreadIndex(t', account, catalog);
    IndexRebuild.RebuildRefinesRecomputation(t, account, entries, source);
    forall id | id in index.messages && index.messages[id].rfcId.Some?
      ensures index.messages[id].rfcId.value in Threads.Related(index.links, id)
    {
      assert IndexRebuild.Key(account, id).messageId in IndexRebuild.Handles(entries);
      var i :| 0 <= i < |entries| && entries[i].handle == id;
      OwnIdIsLinked(t', account, entries[i], source, catalog, parse);
    }
  }

  lemma {:induction false} OwnIdIsLinked(
      t: IndexRebuild.Tables, account: string, e: IndexRebuild.Entry, source: IndexRebuild.Source,
      catalog: map<string, Metadata>, parse: Bytes -> Option<Parsed>)
    requires IndexRebuild.Valid(t) && source.read(e.blobPath).Some?
    requires OwnIdIsParsed(e, source, catalog, parse)
    requires forall data :: source.linksOf(data) == LinkSet(parse(data))
    requires IndexRebuild.At(t, IndexRebuild.Key(account, e.handle)) ==
             IndexRebuild.Fresh(account, e, source.read(e.blobPath).value, source)
    ensures catalog[e.handle].rfcId.Some? ==>
              catalog[e.handle].rfcId.value in Threads.Related(ThreadIndex(t, account, catalog).links, e.handle)
  {
    if catalog[e.handle].rfcId.Some? {
      var data := source.read(e.blobPath).value;
      var own := IndexRebuild.Link("message_id", catalog[e.handle].rfcId.value);
      assert own in LinkSet(parse(data));
      assert own in IndexRebuild.LinksAt(t, IndexRebuild.Key(account, e.handle));
    }
  }
}
