/** The migration driver (migrate.py): card-id extraction from share URLs, the two
    identity tables read from the user-mapping file, comment authorship and the Comments
    column, the list filters over board data, the per-batch state map, the rows handed
    to the importer and their tabulation. */
module Migrate {
  import opened Wrappers
  import opened Newlines
  import opened Seqs
  import opened Text
  import opened Scalars
  import opened PyDict
  import opened CardRow
  import opened TrelloExporter
  import opened YouTrackImporter

  // ---------------------------------------------------------------- card ids

  const CardMarker := "/c/"

  /** `extract_card_id_from_url`. For a share URL, the piece between the first "/c/" and
      the next "/c/", cut at its first "/". The source's `len(parts) > 1` test always
      holds once "/c/" occurs, so it has no branch of its own here. */
  function ExtractCardId(urlOrId: string): (r: string)
    ensures Contains(Strip(urlOrId), CardMarker) ==> '/' !in r
    ensures !Contains(Strip(urlOrId), CardMarker) ==> r == Strip(urlOrId)
  {
    var t := Strip(urlOrId);
    if Contains(t, CardMarker) then
      var parts := Split(t, CardMarker);
      var id := Split(parts[1], "/")[0];
      ContainsChar(id, '/');
      id
    else t
  }

  /** The text after the first occurrence of `sub`. */
  function After(s: string, sub: string): string
    requires Contains(s, sub)
  {
    s[IndexOf(s, sub).value + |sub|..]
  }

  /** A "/c/" marker starts with a slash. */
  lemma MarkerHasSlash(s: string, i: int)
    requires OccursAt(s, CardMarker, i)
    ensures s[i] == '/'
  {
    assert s[i..i + 3][0] == s[i];
  }

  /** For a share URL the id is the text after the first "/c/" up to, not including, the
      next "/" or the end. */
  lemma CardIdAfterMarker(urlOrId: string)
    requires Contains(Strip(urlOrId), CardMarker)
    ensures ExtractCardId(urlOrId) == TakeUntil(After(Strip(urlOrId), CardMarker), '/')
  {
    var t := Strip(urlOrId);
    var rest := After(t, CardMarker);
    SplitSecond(t, CardMarker);
    var second := Split(t, CardMarker)[1];
    assert second == Split(rest, CardMarker)[0];
    SplitHead(rest, CardMarker);
    SplitCharHead(second, '/');
    assert "/" == ['/'];
    match IndexOf(rest, CardMarker)
    case None =>
    case Some(k) =>
      MarkerHasSlash(rest, k);
      var u := TakeUntil(rest, '/');
      TakeUntilPrefix(rest, '/', k);
  }

  /** A bare id comes back trimmed, so extracting again changes nothing. */
  lemma PlainIdStable(urlOrId: string)
    requires !Contains(Strip(urlOrId), CardMarker)
    ensures ExtractCardId(ExtractCardId(urlOrId)) == ExtractCardId(urlOrId)
  {
    StripIdempotent(urlOrId);
  }

  /** A string without "/" has no "/c/" marker. */
  lemma NoSlashNoMarker(s: string)
    requires '/' !in s
    ensures !Contains(s, CardMarker)
  {
    if Contains(s, CardMarker) {
      var i :| 0 <= i <= |s| - 3 && OccursAt(s, CardMarker, i);
      MarkerHasSlash(s, i);
    }
  }

  /** The id taken from a URL is not trimmed, so a second extraction trims it. */
  lemma UrlIdTwice(urlOrId: string)
    requires Contains(Strip(urlOrId), CardMarker)
    ensures ExtractCardId(ExtractCardId(urlOrId)) == Strip(ExtractCardId(urlOrId))
  {
    var id := ExtractCardId(urlOrId);
    StripKeepsOut(id, '/');
    NoSlashNoMarker(Strip(id));
  }

  /** Extraction is not idempotent: a space after the marker survives the first pass
      and is trimmed by the second. */
  lemma UrlIdNotIdempotent()
    ensures ExtractCardId(ExtractCardId("x/c/ a")) != ExtractCardId("x/c/ a")
  {
    SpacedId("x/c/ a");
    UrlIdTwice("x/c/ a");
    assert Strip(" a") != " a" by {
      assert IsSpace(" a"[0]);
    }
  }

  /** The id of "x/c/ a" keeps its leading space. */
  lemma SpacedId(u: string)
    requires u == "x/c/ a"
    ensures Contains(Strip(u), CardMarker) && ExtractCardId(u) == " a"
  {
    assert Contains(u, CardMarker) && After(u, CardMarker) == " a" && '/' !in After(u, CardMarker) by {
      assert u[1..4] == "/c/" && u[0..3] != "/c/" by {
        assert u[1..4][0] == '/' && u[1..4][1] == 'c' && u[1..4][2] == '/' && u[0..3][0] == 'x';
      }
      assert OccursAt(u, CardMarker, 1) && !OccursAt(u, CardMarker, 0);
      assert IndexOf(u, CardMarker) == Some(1);
      assert u[4..] == [' ', 'a'];
    }
    assert u[0] == 'x' && u[|u| - 1] == 'a';
    StripTrimmed(u);
    IdIsTail(u);
  }

  /** With no "/" after the marker, the id is all the rest. */
  lemma IdIsTail(u: string)
    requires Contains(Strip(u), CardMarker) && '/' !in After(Strip(u), CardMarker)
    ensures ExtractCardId(u) == After(Strip(u), CardMarker)
  {
    CardIdAfterMarker(u);
    NoSlashTaken(After(Strip(u), CardMarker));
  }

  lemma NoSlashTaken(s: string)
    requires '/' !in s
    ensures TakeUntil(s, '/') == s
  {
    var r := TakeUntil(s, '/');
    assert |r| == |s|;
  }

  // ---------------------------------------------------------------- identity tables

  /** One entry of the user-mapping file; a missing key reads as "". */
  datatype MappingRecord = MappingRecord(trelloFullname: string, youtrackEmail: string)

  /** The decoded mapping file as its items, keyed by Trello username, in file order. */
  type MappingFile = seq<(string, MappingRecord)>

  /** What one record adds to the display-name table built in `Migration.__init__`. */
  function AddDisplayName(m: map<string, string>, username: string, rec: MappingRecord): map<string, string> {
    var full := rec.trelloFullname;
    if full == "" then m
    else
      var m1 := m[Lower(username) := full];
      var apiName := Lower(full);
      if apiName != "" then m1[apiName := full] else m1
  }

  /** The display-name table after the records, in order. */
  function DisplayNames(records: MappingFile): map<string, string>
    decreases |records|
  {
    if |records| == 0 then map[]
    else
      var last := records[|records| - 1];
      AddDisplayName(DisplayNames(records[..|records| - 1]), last.0, last.1)
  }

  /** The table `Migration.__init__` builds; a missing or undecodable file (None) leaves
      it empty. */
  function DisplayNameTable(file: Option<MappingFile>): (r: map<string, string>)
    ensures file.None? ==> r == map[]
    ensures file.Some? ==> r == DisplayNames(file.value)
  {
    match file
    case None => map[]
    case Some(records) => DisplayNames(records)
  }

  /** A record names someone when its Trello full name is non-empty. */
  predicate Named(rec: MappingRecord) {
    rec.trelloFullname != ""
  }

  /** Every entry of the display-name table comes from a named record: its key is that
      record's username or full name, lowercased, and its value is that full name. */
  lemma {:induction false} DisplayNamesProvenance(records: MappingFile, k: string)
    requires k in DisplayNames(records)
    ensures exists i :: 0 <= i < |records| && Named(records[i].1)
              && DisplayNames(records)[k] == records[i].1.trelloFullname
              && (k == Lower(records[i].0) || k == Lower(records[i].1.trelloFullname))
    decreases |records|
  {
    var n := |records|;
    var init := records[..n - 1];
    var last := records[n - 1];
    var before := DisplayNames(init);
    if Named(last.1) && (k == Lower(last.0) || k == Lower(last.1.trelloFullname)) {
      assert DisplayNames(records)[k] == last.1.trelloFullname;
    } else {
      assert k in before && DisplayNames(records)[k] == before[k];
      DisplayNamesProvenance(init, k);
      var i :| 0 <= i < |init| && Named(init[i].1) && before[k] == init[i].1.trelloFullname
               && (k == Lower(init[i].0) || k == Lower(init[i].1.trelloFullname));
      assert records[i] == init[i];
    }
  }

  /** The display-name table has lowercase keys only. */
  lemma DisplayNamesLowercase(records: MappingFile, k: string)
    requires k in DisplayNames(records)
    ensures Lower(k) == k
  {
    DisplayNamesProvenance(records, k);
    var i :| 0 <= i < |records| && (k == Lower(records[i].0) || k == Lower(records[i].1.trelloFullname));
    LowerIdempotent(records[i].0);
    LowerIdempotent(records[i].1.trelloFullname);
  }

  /** Every named record is reachable by its lowercased username and full name. */
  lemma {:induction false} DisplayNamesComplete(records: MappingFile, i: int)
    requires 0 <= i < |records| && Named(records[i].1)
    ensures Lower(records[i].0) in DisplayNames(records)
    ensures Lower(records[i].1.trelloFullname) in DisplayNames(records)
    decreases |records|
  {
    var n := |records|;
    if i < n - 1 {
      var init := records[..n - 1];
      assert init[i] == records[i];
      DisplayNamesComplete(init, i);
    }
  }

  /** A record without a full name adds nothing. */
  lemma UnnamedRecordIgnored(records: MappingFile, username: string, rec: MappingRecord)
    requires !Named(rec)
    ensures DisplayNames(records + [(username, rec)]) == DisplayNames(records)
  {
    assert (records + [(username, rec)])[..|records|] == records;
  }

  /** What one record adds to the `user_map` built in `import_cards_to_youtrack`. */
  function AddLoginEmail(m: map<string, string>, username: string, rec: MappingRecord): (r: map<string, string>)
    ensures m.Keys <= r.Keys
  {
    var email := Strip(rec.youtrackEmail);
    var full := Strip(rec.trelloFullname);
    if email == "" then m
    else FileUnder(m, username != "", Lower(username), full != "", Lower(full), Lower(email))
  }

  /** `v` filed under `a` when `useA`, then under `b` when `useB` and `b` differs from `a`. */
  function FileUnder(m: map<string, string>, useA: bool, a: string, useB: bool, b: string, v: string): (r: map<string, string>)
    ensures m.Keys <= r.Keys
  {
    var m1 := if useA then m[a := v] else m;
    if useB && b != a then m1[b := v] else m1
  }

  lemma FileUnderSpec(m: map<string, string>, useA: bool, a: string, useB: bool, b: string, v: string, k: string)
    requires useB && b == a ==> useA
    ensures k in FileUnder(m, useA, a, useB, b, v) <==> k in m || (useA && k == a) || (useB && k == b)
    ensures (useA && k == a) || (useB && k == b) ==> FileUnder(m, useA, a, useB, b, v)[k] == v
    ensures !((useA && k == a) || (useB && k == b)) && k in m ==> FileUnder(m, useA, a, useB, b, v)[k] == m[k]
  {
  }

  /** A record counts for the user map when its trimmed YouTrack email is non-empty. */
  predicate HasEmail(rec: MappingRecord) {
    Strip(rec.youtrackEmail) != ""
  }

  /** `k` is a key the record files its email under: its lowercased username or its
      lowercased trimmed full name, whichever is non-empty. */
  predicate EmailKey(username: string, rec: MappingRecord, k: string) {
    && HasEmail(rec)
    && ((username != "" && k == Lower(username))
        || (Strip(rec.trelloFullname) != "" && k == Lower(Strip(rec.trelloFullname))))
  }

  /** One record files its lowercased email under each of its keys and leaves every
      other entry as it was. */
  lemma AddLoginEmailSpec(m: map<string, string>, username: string, rec: MappingRecord, k: string)
    ensures k in AddLoginEmail(m, username, rec) <==> k in m || EmailKey(username, rec, k)
    ensures EmailKey(username, rec, k) ==> k != "" && AddLoginEmail(m, username, rec)[k] == Lower(Strip(rec.youtrackEmail))
    ensures !EmailKey(username, rec, k) && k in m ==> AddLoginEmail(m, username, rec)[k] == m[k]
  {
    var email := Strip(rec.youtrackEmail);
    var full := Strip(rec.trelloFullname);
    if email != "" {
      FileUnderSpec(m, username != "", Lower(username), full != "", Lower(full), Lower(email), k);
      assert |Lower(username)| == |username| && |Lower(full)| == |full|;
    }
  }

  /** The user map after the records, in order. */
  function EmailMap(records: MappingFile): map<string, string>
    decreases |records|
  {
    if |records| == 0 then map[]
    else
      var last := records[|records| - 1];
      AddLoginEmail(EmailMap(records[..|records| - 1]), last.0, last.1)
  }

  /** The `user_map` of `import_cards_to_youtrack`; a missing or unreadable file (None)
      leaves it empty. */
  function ImportUserMap(file: Option<MappingFile>): (r: map<string, string>)
    ensures file.None? ==> r == map[]
    ensures file.Some? ==> r == EmailMap(file.value)
  {
    match file
    case None => map[]
    case Some(records) => EmailMap(records)
  }

  /** Every user-map entry comes from a record with an email: the key is one of that
      record's keys, so non-empty, and the value its lowercased trimmed email. */
  lemma {:induction false} EmailMapProvenance(records: MappingFile, k: string)
    requires k in EmailMap(records)
    ensures k != ""
    ensures exists i :: 0 <= i < |records| && EmailKey(records[i].0, records[i].1, k)
                        && EmailMap(records)[k] == Lower(Strip(records[i].1.youtrackEmail))
    decreases |records|
  {
    var n := |records|;
    var init := records[..n - 1];
    var last := records[n - 1];
    var before := EmailMap(init);
    AddLoginEmailSpec(before, last.0, last.1, k);
    if EmailKey(last.0, last.1, k) {
      assert EmailMap(records)[k] == Lower(Strip(last.1.youtrackEmail));
    } else {
      EmailMapProvenance(init, k);
      var i :| 0 <= i < |init| && EmailKey(init[i].0, init[i].1, k)
               && before[k] == Lower(Strip(init[i].1.youtrackEmail));
      assert records[i] == init[i];
    }
  }

  /** Every record with an email is reachable by its lowercased username, if it has one,
      and by its lowercased trimmed full name, if it has one. */
  lemma {:induction false} EmailMapComplete(records: MappingFile, i: int)
    requires 0 <= i < |records| && HasEmail(records[i].1)
    ensures records[i].0 != "" ==> Lower(records[i].0) in EmailMap(records)
    ensures Strip(records[i].1.trelloFullname) != "" ==>
              Lower(Strip(records[i].1.trelloFullname)) in EmailMap(records)
  {
    EmailMapSnoc(records, i);
    AddLoginEmailSpec(EmailMap(records[..i]), records[i].0, records[i].1, Lower(records[i].0));
    AddLoginEmailSpec(EmailMap(records[..i]), records[i].0, records[i].1, Lower(Strip(records[i].1.trelloFullname)));
    EmailMapGrows(records, i + 1);
  }

  lemma EmailMapSnoc(records: MappingFile, n: int)
    requires 0 <= n < |records|
    ensures EmailMap(records[..n + 1]) == AddLoginEmail(EmailMap(records[..n]), records[n].0, records[n].1)
  {
    assert records[..n + 1][..n] == records[..n];
  }

  /** Later records never remove a key. */
  lemma {:induction false} EmailMapGrows(records: MappingFile, n: nat)
    requires n <= |records|
    ensures EmailMap(records[..n]).Keys <= EmailMap(records).Keys
    decreases |records| - n
  {
    if n < |records| {
      EmailMapSnoc(records, n);
      EmailMapGrows(records, n + 1);
    } else {
      assert records[..n] == records;
    }
  }

  /** A record without an email adds nothing to the user map. */
  lemma NoEmailIgnored(records: MappingFile, username: string, rec: MappingRecord)
    requires !HasEmail(rec)
    ensures EmailMap(records + [(username, rec)]) == EmailMap(records)
  {
    assert (records + [(username, rec)])[..|records|] == records;
  }

  // ---------------------------------------------------------------- comments

  /** A `commentCard` action: the creator's username and full name, the text and date;
      a missing key reads as "". */
  datatype TrelloComment = TrelloComment(username: string, fullName: string, text: string, date: string)

  predicate ByUsername(c: TrelloComment, names: map<string, string>) {
    c.username != "" && Lower(c.username) in names
  }

  predicate ByFullName(c: TrelloComment, names: map<string, string>) {
    c.fullName != "" && Lower(c.fullName) in names
  }

  /** The author shown for a comment: the display name of the lowercased username, else
      of the lowercased full name, else the raw full name, else "Unknown". */
  function CommentAuthor(c: TrelloComment, names: map<string, string>): (r: string)
    ensures ByUsername(c, names) ==> r == names[Lower(c.username)]
    ensures !ByUsername(c, names) && ByFullName(c, names) ==> r == names[Lower(c.fullName)]
    ensures !ByUsername(c, names) && !ByFullName(c, names) && c.fullName != "" ==> r == c.fullName
    ensures !ByUsername(c, names) && !ByFullName(c, names) && c.fullName == "" ==> r == "Unknown"
  {
    if c.username != "" && Lower(c.username) in names then names[Lower(c.username)]
    else if c.fullName != "" && Lower(c.fullName) in names then names[Lower(c.fullName)]
    else if c.fullName != "" then c.fullName
    else "Unknown"
  }

  /** With the display-name table, the author is a mapped full name, the raw full name, or
      "Unknown" — and never empty. */
  lemma AuthorIsKnown(c: TrelloComment, records: MappingFile)
    ensures var r := CommentAuthor(c, DisplayNames(records));
      r != ""
      && (r == "Unknown" || r == c.fullName
          || exists i :: 0 <= i < |records| && Named(records[i].1) && r == records[i].1.trelloFullname)
  {
    var names := DisplayNames(records);
    if c.username != "" && Lower(c.username) in names {
      DisplayNamesProvenance(records, Lower(c.username));
    } else if c.fullName != "" && Lower(c.fullName) in names {
      DisplayNamesProvenance(records, Lower(c.fullName));
    }
  }

  /** `f"[{author} on {date}]\n{text}"` */
  function FormatComment(names: map<string, string>): TrelloComment -> string {
    (c: TrelloComment) => "[" + CommentAuthor(c, names) + " on " + c.date + "]\n" + c.text
  }

  function HasText(c: TrelloComment): bool {
    c.text != ""
  }

  /** The formatted comments that survive: those with text, in order. */
  function KeptComments(comments: seq<TrelloComment>, names: map<string, string>): seq<string> {
    Map(FormatComment(names), Filter(HasText, comments))
  }

  /** The Comments column: the kept comments joined by the separator, or "" when none. */
  function FormatComments(comments: seq<TrelloComment>, names: map<string, string>): (r: string)
    ensures r == "" <==> forall i :: 0 <= i < |comments| ==> comments[i].text == ""
  {
    var kept := KeptComments(comments, names);
    if kept == [] then ""
    else
      assert kept[0][0] == '[';
      Join(kept, CommentSeparator)
  }

  /** Reading the Comments column back by splitting on the separator gives the kept
      comments, as long as none of them runs into the separator. */
  lemma CommentsSplitBack(comments: seq<TrelloComment>, names: map<string, string>)
    requires KeptComments(comments, names) != []
    requires forall i :: 0 <= i < |KeptComments(comments, names)| ==>
               SplitsCleanly(KeptComments(comments, names)[i], CommentSeparator)
    ensures Split(FormatComments(comments, names), CommentSeparator) == KeptComments(comments, names)
  {
    SplitJoin(KeptComments(comments, names), CommentSeparator);
  }

  // ---------------------------------------------------------------- board filters

  datatype TrelloList = TrelloList(id: string, name: string)

  /** What the board endpoint returns that the migration reads; `name` is None when the
      key is absent. */
  datatype Board = Board(name: Option<string>, lists: seq<TrelloList>, cards: seq<Card>)

  function ListEntry(l: TrelloList): (string, string) {
    (l.id, l.name)
  }

  /** `lists_map`: list id to name; a later list with the same id overwrites the name but
      keeps the first position. */
  function ListsMap(board: Board): (r: Dict<string, string>)
    ensures DistinctKeys(r)
    ensures forall id :: Get(r, id) == LastValue(Map(ListEntry, board.lists), id)
  {
    FromPairs(Map(ListEntry, board.lists))
  }

  function OpenIn(listId: string): Card -> bool {
    (c: Card) => c.idList == Some(listId) && !c.closed
  }

  /** The cards of one list that are not closed, in board order. */
  function OpenCards(cards: seq<Card>, listId: string): (r: seq<Card>)
    ensures forall i :: 0 <= i < |r| ==> r[i] in cards && r[i].idList == Some(listId) && !r[i].closed
    ensures forall i :: 0 <= i < |cards| && cards[i].idList == Some(listId) && !cards[i].closed ==> cards[i] in r
  {
    Filter(OpenIn(listId), cards)
  }

  /** Open cards are picked card by card: the open cards of two card lists one after the
      other are those of the first followed by those of the second. */
  lemma OpenCardsConcat(s: seq<Card>, t: seq<Card>, listId: string)
    ensures OpenCards(s + t, listId) == OpenCards(s, listId) + OpenCards(t, listId)
  {
    FilterConcat(OpenIn(listId), s, t);
  }

  /** One card is kept exactly when it is in the list and open. */
  lemma OpenCardsSingle(c: Card, listId: string)
    ensures OpenCards([c], listId) == if c.idList == Some(listId) && !c.closed then [c] else []
  {
    assert [c][1..] == [];
  }

  function IdIfNamed(name: string): ((string, string)) -> Option<string> {
    (e: (string, string)) => if e.1 == name then Some(e.0) else None
  }

  /** The id of the first entry of `lists_map` that carries the name. */
  function FirstListNamed(lists: Dict<string, string>, name: string): (r: Option<string>)
    ensures r.None? <==> forall i :: 0 <= i < |lists| ==> lists[i].1 != name
    ensures r.Some? ==> exists k :: 0 <= k < |lists| && lists[k] == (r.value, name)
                                 && forall j :: 0 <= j < k ==> lists[j].1 != name
  {
    FirstSome(IdIfNamed(name), lists)
  }

  /** `fetch_cards_from_list` over fetched board data. */
  function FetchCardsFromList(board: Board, listName: string): (r: seq<Card>)
    ensures FirstListNamed(ListsMap(board), listName).None? ==> r == []
    ensures forall i :: 0 <= i < |r| ==>
              r[i] in board.cards && !r[i].closed && r[i].idList == FirstListNamed(ListsMap(board), listName)
  {
    match FirstListNamed(ListsMap(board), listName)
    case Some(id) => OpenCards(board.cards, id)
    case None => []
  }

  /** Every fetched card sits in a list that `lists_map` names `listName`, and every open
      card of the first such list is fetched. */
  lemma FetchedCardsInNamedList(board: Board, listName: string)
    ensures forall i :: 0 <= i < |FetchCardsFromList(board, listName)| ==>
              FetchCardsFromList(board, listName)[i].idList.Some?
              && Get(ListsMap(board), FetchCardsFromList(board, listName)[i].idList.value) == Some(listName)
    ensures FirstListNamed(ListsMap(board), listName).Some? ==>
              forall c :: c in board.cards && !c.closed && c.idList == FirstListNamed(ListsMap(board), listName)
                ==> c in FetchCardsFromList(board, listName)
  {
    var lists := ListsMap(board);
    match FirstListNamed(lists, listName) {
      case Some(id) =>
        FirstNamedFound(lists, listName);
        OpenCardsComplete(board.cards, id);
      case None =>
    }
  }

  /** With distinct ids, the first list carrying a name is listed under that name. */
  lemma FirstNamedFound(lists: Dict<string, string>, name: string)
    requires DistinctKeys(lists) && FirstListNamed(lists, name).Some?
    ensures Get(lists, FirstListNamed(lists, name).value) == Some(name)
  {
    var k :| 0 <= k < |lists| && lists[k] == (FirstListNamed(lists, name).value, name);
    GetDistinct(lists, k);
  }

  lemma OpenCardsComplete(cards: seq<Card>, id: string)
    ensures forall c :: c in cards && !c.closed && c.idList == Some(id) ==> c in OpenCards(cards, id)
  {
    forall c | c in cards && !c.closed && c.idList == Some(id)
      ensures c in OpenCards(cards, id)
    {
      var i :| 0 <= i < |cards| && cards[i] == c;
    }
  }

  /** The open cards of each list id. */
  type CardsOf = string -> seq<Card>

  function OpenCardsOf(cards: seq<Card>): CardsOf {
    (id: string) => OpenCards(cards, id)
  }

  /** One `lists_map` entry's contribution to `get_all_lists_with_cards`. */
  function AddListCards(acc: Dict<string, seq<Card>>, open: CardsOf, entry: (string, string)): Dict<string, seq<Card>> {
    if open(entry.0) != [] then Put(acc, entry.1, open(entry.0)) else acc
  }

  function ListsWithCards(lists: Dict<string, string>, open: CardsOf): (r: Dict<string, seq<Card>>)
    ensures DistinctKeys(r)
    decreases |lists|
  {
    if |lists| == 0 then []
    else AddListCards(ListsWithCards(lists[..|lists| - 1], open), open, lists[|lists| - 1])
  }

  /** `get_all_lists_with_cards` over fetched board data: list name to its open cards. */
  function GetAllListsWithCards(board: Board): (r: Dict<string, seq<Card>>)
    ensures DistinctKeys(r)
  {
    ListsWithCards(ListsMap(board), OpenCardsOf(board.cards))
  }

  /** A name is listed exactly when some list of that name has open cards; it holds the
      open cards of the last such list. */
  lemma ListsWithCardsSpec(lists: Dict<string, string>, open: CardsOf, name: string)
    ensures Get(ListsWithCards(lists, open), name).Some? <==>
              exists i :: 0 <= i < |lists| && lists[i].1 == name && open(lists[i].0) != []
    ensures Get(ListsWithCards(lists, open), name).Some? ==>
              exists i :: 0 <= i < |lists| && lists[i].1 == name
                          && Get(ListsWithCards(lists, open), name) == Some(open(lists[i].0))
                          && forall j :: i < j < |lists| && lists[j].1 == name ==> open(lists[j].0) == []
  {
    ListsWithCardsHas(lists, open, name);
    ListsWithCardsLast(lists, open, name);
  }

  /** One entry adds its name exactly when its list has open cards. */
  lemma AddListCardsGet(acc: Dict<string, seq<Card>>, open: CardsOf, entry: (string, string), name: string)
    ensures Get(AddListCards(acc, open, entry), name)
         == if entry.1 == name && open(entry.0) != [] then Some(open(entry.0)) else Get(acc, name)
  {
  }

  /** The listing up to the last entry, then that entry. */
  lemma ListsWithCardsSnoc(lists: Dict<string, string>, open: CardsOf, name: string)
    requires |lists| > 0
    ensures Get(ListsWithCards(lists, open), name)
         == if lists[|lists| - 1].1 == name && open(lists[|lists| - 1].0) != []
            then Some(open(lists[|lists| - 1].0))
            else Get(ListsWithCards(lists[..|lists| - 1], open), name)
  {
    AddListCardsGet(ListsWithCards(lists[..|lists| - 1], open), open, lists[|lists| - 1], name);
  }

  lemma {:induction false} ListsWithCardsHas(lists: Dict<string, string>, open: CardsOf, name: string)
    ensures Get(ListsWithCards(lists, open), name).Some? <==>
              exists i :: 0 <= i < |lists| && lists[i].1 == name && open(lists[i].0) != []
    decreases |lists|
  {
    if |lists| > 0 {
      var init := lists[..|lists| - 1];
      ListsWithCardsHas(init, open, name);
      ListsWithCardsSnoc(lists, open, name);
      assert forall j :: 0 <= j < |init| ==> init[j] == lists[j];
    }
  }

  lemma {:induction false} ListsWithCardsLast(lists: Dict<string, string>, open: CardsOf, name: string)
    ensures Get(ListsWithCards(lists, open), name).Some? ==>
              exists i :: 0 <= i < |lists| && lists[i].1 == name
                          && Get(ListsWithCards(lists, open), name) == Some(open(lists[i].0))
                          && forall j :: i < j < |lists| && lists[j].1 == name ==> open(lists[j].0) == []
    decreases |lists|
  {
    if |lists| > 0 {
      var init := lists[..|lists| - 1];
      var last := lists[|lists| - 1];
      ListsWithCardsLast(init, open, name);
      ListsWithCardsSnoc(lists, open, name);
      var g := Get(ListsWithCards(lists, open), name);
      if last.1 == name && open(last.0) != [] {
        LastWitness(lists, open, name, |lists| - 1, g);
      } else if g.Some? {
        var i :| 0 <= i < |init| && init[i].1 == name && g == Some(open(init[i].0))
                 && forall j :: i < j < |init| && init[j].1 == name ==> open(init[j].0) == [];
        assert forall j :: 0 <= j < |init| ==> init[j] == lists[j];
        LastWitness(lists, open, name, i, g);
      }
    }
  }

  lemma LastWitness(lists: Dict<string, string>, open: CardsOf, name: string, i: int, g: Option<seq<Card>>)
    requires 0 <= i < |lists| && lists[i].1 == name && g == Some(open(lists[i].0))
    requires forall j :: i < j < |lists| && lists[j].1 == name ==> open(lists[j].0) == []
    ensures exists i :: 0 <= i < |lists| && lists[i].1 == name && g == Some(open(lists[i].0))
                        && forall j :: i < j < |lists| && lists[j].1 == name ==> open(lists[j].0) == []
  {
  }

  /** When one list carries a name, both filters agree on it: the listing holds exactly
      the cards fetching by that name returns, and omits the name when there are none. */
  lemma ListingAgreesWithFetch(board: Board, listName: string, k: int)
    requires 0 <= k < |ListsMap(board)| && ListsMap(board)[k].1 == listName
    requires forall j :: 0 <= j < |ListsMap(board)| && j != k ==> ListsMap(board)[j].1 != listName
    ensures Get(GetAllListsWithCards(board), listName) ==
              if FetchCardsFromList(board, listName) != [] then Some(FetchCardsFromList(board, listName)) else None
  {
    var lists := ListsMap(board);
    ListsWithCardsSpec(lists, OpenCardsOf(board.cards), listName);
    FirstNamedAt(lists, listName, k);
  }

  /** With two lists of the same name, fetching by name takes the first and the listing
      the last: when only the later list has open cards, fetching finds nothing while the
      listing shows that list's cards under the name. */
  lemma DuplicateNamesDisagree(board: Board, listName: string, a: int, b: int)
    requires 0 <= a < b < |ListsMap(board)|
    requires ListsMap(board)[a].1 == listName && ListsMap(board)[b].1 == listName
    requires forall j :: 0 <= j < |ListsMap(board)| && j != a && j != b ==> ListsMap(board)[j].1 != listName
    requires OpenCards(board.cards, ListsMap(board)[a].0) == []
    requires OpenCards(board.cards, ListsMap(board)[b].0) != []
    ensures FetchCardsFromList(board, listName) == []
    ensures Get(GetAllListsWithCards(board), listName) == Some(OpenCards(board.cards, ListsMap(board)[b].0))
  {
    var lists := ListsMap(board);
    FirstNamedAt(lists, listName, a);
    ListsWithCardsSpec(lists, OpenCardsOf(board.cards), listName);
  }

  /** The first entry carrying a name is the one `FirstListNamed` finds. */
  lemma FirstNamedAt(lists: Dict<string, string>, name: string, a: int)
    requires 0 <= a < |lists| && lists[a].1 == name
    requires forall j :: 0 <= j < a ==> lists[j].1 != name
    ensures FirstListNamed(lists, name) == Some(lists[a].0)
  {
    var k :| 0 <= k < |lists| && lists[k] == (FirstListNamed(lists, name).value, name)
             && forall j :: 0 <= j < k ==> lists[j].1 != name;
    assert k == a;
  }

  // ---------------------------------------------------------------- the batch's state

  /** The List value of rows migrated card by card. */
  const SelectedCardsLabel := "Selected Cards"

  /** `state_map` of one import run: the batch's List value to the chosen state. */
  function BatchStateMap(sourceLabel: string, targetState: string): (r: StateMap)
    ensures r.Keys == {sourceLabel}
    ensures r[sourceLabel].name == targetState
  {
    map[sourceLabel := StateInfo(targetState, targetState)]
  }

  // ---------------------------------------------------------------- rows

  /** The columns every row starts with, in order. */
  const BaseColumns: seq<string> := [
    BoardColumn, ListColumn, CardIdColumn, CardNameColumn, DescriptionColumn, DueDateColumn,
    DueCompleteColumn, LabelsColumn, PriorityColumn, StoryPointsColumn, MembersColumn,
    MemberEmailsColumn, MemberUsernamesColumn, UrlColumn, ArchivedColumn, AttachmentsColumn,
    ChecklistsColumn, CommentsColumn
  ]

  function YesNo(b: bool): string {
    if b then "Yes" else "No"
  }

  /** The Story Points cell: the number as `str` writes it, "" when there is none. */
  function StoryPointsCell(points: Option<int>): string {
    match points
    case Some(n) => IntToString(n)
    case None => ""
  }

  function NonEmpty(s: string): bool {
    s != ""
  }

  function Username(m: Member): string {
    m.username
  }

  function Email(m: Member): string {
    m.email
  }

  /** `', '.join(x for x in xs if x)` */
  function JoinPresent(xs: seq<string>): string {
    Join(Filter(NonEmpty, xs), ", ")
  }

  /** The first eighteen cells of a row, one per base column. */
  datatype BaseCells = BaseCells(
    board: string, list: string, id: string, name: string, desc: string, due: string,
    dueComplete: string, labels: string, priority: string, storyPoints: string,
    members: string, emails: string, usernames: string, url: string, archived: string,
    attachments: string, checklists: string, comments: string)

  /** The cells in column order. */
  function CellValues(c: BaseCells): (r: seq<string>)
    ensures |r| == |BaseColumns|
  {
    [c.board, c.list, c.id, c.name, c.desc, c.due, c.dueComplete, c.labels, c.priority, c.storyPoints,
     c.members, c.emails, c.usernames, c.url, c.archived, c.attachments, c.checklists, c.comments]
  }

  /** The List cell sits under the List column. */
  lemma ListCell(c: BaseCells)
    ensures BaseColumns[1] == ListColumn && CellValues(c)[1] == c.list
  {
  }

  /** The Labels cell sits under the Labels column. */
  lemma LabelsCell(c: BaseCells)
    ensures BaseColumns[7] == LabelsColumn && CellValues(c)[7] == c.labels
  {
  }

  /** The Priority cell sits under the Priority column. */
  lemma PriorityCell(c: BaseCells)
    ensures BaseColumns[8] == PriorityColumn && CellValues(c)[8] == c.priority
  {
  }

  /** The Comments cell sits under the Comments column. */
  lemma CommentsCell(c: BaseCells)
    ensures BaseColumns[17] == CommentsColumn && CellValues(c)[17] == c.comments
  {
  }

  /** The Story Points cell sits under the Story Points column. */
  lemma PointsCell(c: BaseCells)
    ensures BaseColumns[9] == StoryPointsColumn && CellValues(c)[9] == c.storyPoints
  {
  }

  /** The base cells of a card. The card as listed supplies its own fields; the fetched
      details supply members, plugin data, attachments and checklists. */
  function CardCells(card: Card, detail: Card, comments: string, listName: string, boardName: string): BaseCells {
    BaseCells(boardName, listName, card.id, card.name, card.desc, card.due, YesNo(card.dueComplete),
              FormatLabels(card.labels), RowPriority(detail.pluginData),
              StoryPointsCell(CardStoryPoints(detail.pluginData)), FormatMembers(detail.members),
              JoinPresent(Map(Email, detail.members)), JoinPresent(Map(Username, detail.members)),
              card.shortUrl, "No", FormatAttachments(detail.attachments), FormatChecklists(detail.checklists),
              comments)
  }

  /** The base cells under their column names. */
  function BaseRow(card: Card, detail: Card, comments: string, listName: string, boardName: string): (r: Dict<string, string>)
    ensures Keys(r) == BaseColumns
  {
    Zip(BaseColumns, CellValues(CardCells(card, detail, comments, listName, boardName)))
  }

  lemma BaseColumnsDistinct()
    ensures forall i, j :: 0 <= i < j < |BaseColumns| ==> BaseColumns[i] != BaseColumns[j]
  {
  }

  /** The powerup links as columns, Other Links popped. */
  function LinkColumns(links: seq<(Bucket, string)>): Dict<string, string> {
    if |links| == 0 then []
    else (if links[0].0 != OtherLinks then [(BucketName(links[0].0), links[0].1)] else []) + LinkColumns(links[1..])
  }

  predicate DistinctBuckets(links: seq<(Bucket, string)>) {
    forall i, j :: 0 <= i < j < |links| ==> links[i].0 != links[j].0
  }

  lemma BucketNameInjective(a: Bucket, b: Bucket)
    ensures BucketName(a) == BucketName(b) ==> a == b
  {
  }

  /** `c` is the column of some link whose bucket is not Other Links. */
  predicate FromLink(links: seq<(Bucket, string)>, c: (string, string)) {
    exists j :: 0 <= j < |links| && links[j].0 != OtherLinks && c == (BucketName(links[j].0), links[j].1)
  }

  /** Each link column is a bucket other than Other Links under its column name, with
      that bucket's text; with distinct buckets the columns are distinct. */
  lemma LinkColumnsSpec(links: seq<(Bucket, string)>)
    ensures forall i :: 0 <= i < |LinkColumns(links)| ==> FromLink(links, LinkColumns(links)[i])
    ensures DistinctBuckets(links) ==> DistinctKeys(LinkColumns(links))
  {
    LinkColumnsFrom(links);
    if DistinctBuckets(links) {
      LinkColumnsDistinct(links);
    }
  }

  lemma {:induction false} LinkColumnsFrom(links: seq<(Bucket, string)>)
    ensures forall i :: 0 <= i < |LinkColumns(links)| ==> FromLink(links, LinkColumns(links)[i])
  {
    if |links| > 0 {
      LinkColumnsFrom(links[1..]);
      var head := if links[0].0 != OtherLinks then [(BucketName(links[0].0), links[0].1)] else [];
      var rest := LinkColumns(links[1..]);
      var r := LinkColumns(links);
      assert r == head + rest;
      forall i | 0 <= i < |r|
        ensures FromLink(links, r[i])
      {
        if i < |head| {
          assert r[i] == (BucketName(links[0].0), links[0].1);
        } else {
          assert r[i] == rest[i - |head|];
          var j :| 0 <= j < |links[1..]| && links[1..][j].0 != OtherLinks
                   && rest[i - |head|] == (BucketName(links[1..][j].0), links[1..][j].1);
          assert links[1..][j] == links[j + 1];
        }
      }
    } else {
      assert LinkColumns(links) == [];
    }
  }

  lemma DistinctBucketsTail(links: seq<(Bucket, string)>)
    requires |links| > 0 && DistinctBuckets(links)
    ensures DistinctBuckets(links[1..])
  {
    forall i, j | 0 <= i < j < |links[1..]| ensures links[1..][i].0 != links[1..][j].0 {
      assert links[1..][i] == links[i + 1] && links[1..][j] == links[j + 1];
    }
  }

  lemma {:induction false} LinkColumnsDistinct(links: seq<(Bucket, string)>)
    requires DistinctBuckets(links)
    ensures DistinctKeys(LinkColumns(links))
  {
    if |links| > 0 {
      DistinctBucketsTail(links);
      LinkColumnsDistinct(links[1..]);
      LinkColumnsFrom(links[1..]);
      var head := if links[0].0 != OtherLinks then [(BucketName(links[0].0), links[0].1)] else [];
      var rest := LinkColumns(links[1..]);
      var r := LinkColumns(links);
      assert r == head + rest;
      forall i, j | 0 <= i < j < |r| ensures r[i].0 != r[j].0 {
        if i < |head| {
          assert r[j] == rest[j - |head|];
          var x :| 0 <= x < |links[1..]| && links[1..][x].0 != OtherLinks
                   && rest[j - |head|] == (BucketName(links[1..][x].0), links[1..][x].1);
          assert links[1..][x] == links[x + 1];
          BucketNameInjective(links[0].0, links[x + 1].0);
        } else {
          assert r[i] == rest[i - |head|] && r[j] == rest[j - |head|];
        }
      }
    } else {
      assert LinkColumns(links) == [];
    }
  }

  /** Looking up a bucket's column finds that bucket's text, and nothing for a bucket
      that is absent or is Other Links. */
  lemma {:induction false} LinkColumnsGet(links: seq<(Bucket, string)>, b: Bucket)
    requires DistinctBuckets(links)
    ensures b == OtherLinks || (forall j :: 0 <= j < |links| ==> links[j].0 != b) ==>
              Get(LinkColumns(links), BucketName(b)) == None
    ensures forall j :: 0 <= j < |links| && links[j].0 == b && b != OtherLinks ==>
              Get(LinkColumns(links), BucketName(b)) == Some(links[j].1)
  {
    if |links| > 0 {
      DistinctBucketsTail(links);
      LinkColumnsGet(links[1..], b);
      assert forall j :: 1 <= j < |links| ==> links[j] == links[1..][j - 1];
      BucketNameInjective(links[0].0, b);
      var head := if links[0].0 != OtherLinks then [(BucketName(links[0].0), links[0].1)] else [];
      GetAppend(head, LinkColumns(links[1..]), BucketName(b));
    }
  }

  /** One row of `prepare_cards_for_import`. `fetched` is what `get_card_details`
      returned, None when it raised; `comments` are the card's comments and `names` the
      display-name table. */
  function PrepareRow(card: Card, fetched: Option<Card>, comments: seq<TrelloComment>, names: map<string, string>,
                      listName: string, boardName: string): Dict<string, string> {
    var detail := fetched.GetOr(card);
    Update(BaseRow(card, detail, FormatComments(comments, names), listName, boardName),
           LinkColumns(PowerupLinks(detail.attachments, true)))
  }

  function DetailLinks(card: Card, fetched: Option<Card>): Dict<string, string> {
    LinkColumns(PowerupLinks(fetched.GetOr(card).attachments, true))
  }

  /** The powerup buckets come out in bucket order, so each at most once. */
  lemma PowerupBucketsDistinct(attachments: seq<Attachment>)
    ensures DistinctBuckets(PowerupLinks(attachments, true))
  {
    PowerupLinksSpec(attachments, true);
    var r := PowerupLinks(attachments, true);
    forall i, j | 0 <= i < j < |r| ensures r[i].0 != r[j].0 {
      assert BucketRank(r[i].0) < BucketRank(r[j].0);
    }
  }

  /** Link columns never collide with the base columns, so updating appends them. */
  lemma {:induction false} LinksAppend(base: Dict<string, string>, links: seq<(Bucket, string)>)
    requires Keys(base) == BaseColumns
    requires DistinctBuckets(links)
    ensures Update(base, LinkColumns(links)) == base + LinkColumns(links)
  {
    var lc := LinkColumns(links);
    LinkColumnsSpec(links);
    forall i, j | 0 <= i < |base| && 0 <= j < |lc| ensures base[i].0 != lc[j].0 {
      var x :| 0 <= x < |links| && links[x].0 != OtherLinks && lc[j] == (BucketName(links[x].0), links[x].1);
      BucketColumnNotBase(links[x].0);
      assert base[i].0 == Keys(base)[i] == BaseColumns[i];
    }
    UpdateFresh(base, lc);
  }

  /** A row is the eighteen base cells followed by the link columns, in bucket order. */
  lemma RowLayout(card: Card, fetched: Option<Card>, comments: seq<TrelloComment>, names: map<string, string>,
                  listName: string, boardName: string)
    ensures PrepareRow(card, fetched, comments, names, listName, boardName) ==
              BaseRow(card, fetched.GetOr(card), FormatComments(comments, names), listName, boardName)
              + DetailLinks(card, fetched)
  {
    var detail := fetched.GetOr(card);
    PowerupBucketsDistinct(detail.attachments);
    LinksAppend(BaseRow(card, detail, FormatComments(comments, names), listName, boardName),
                PowerupLinks(detail.attachments, true));
  }

  lemma BucketColumnNotBase(b: Bucket)
    ensures BucketName(b) !in BaseColumns
  {
  }

  /** The base cells read back from a row whatever link columns follow. */
  lemma BaseCellsKept(base: Dict<string, string>, links: seq<(Bucket, string)>, i: int)
    requires Keys(base) == BaseColumns && 0 <= i < |BaseColumns|
    ensures Get(base + LinkColumns(links), BaseColumns[i]) == Some(base[i].1)
  {
    BaseColumnsDistinct();
    assert DistinctKeys(base) by {
      forall x, y | 0 <= x < y < |base| ensures base[x].0 != base[y].0 {
        assert base[x].0 == Keys(base)[x] && base[y].0 == Keys(base)[y];
      }
    }
    assert base[i].0 == Keys(base)[i];
    GetDistinct(base, i);
    GetAppend(base, LinkColumns(links), BaseColumns[i]);
  }

  /** A bucket column is never a base column, so its lookup goes to the link columns. */
  lemma LinkCellsKept(base: Dict<string, string>, links: seq<(Bucket, string)>, b: Bucket)
    requires Keys(base) == BaseColumns
    ensures Get(base + LinkColumns(links), BucketName(b)) == Get(LinkColumns(links), BucketName(b))
  {
    BucketColumnNotBase(b);
    GetFindsPair(base, BucketName(b));
    GetAppend(base, LinkColumns(links), BucketName(b));
  }

  /** Every base column of a row holds the base cell. */
  lemma RowBaseCells(card: Card, fetched: Option<Card>, comments: seq<TrelloComment>, names: map<string, string>,
                     listName: string, boardName: string, i: int)
    requires 0 <= i < |BaseColumns|
    ensures Get(PrepareRow(card, fetched, comments, names, listName, boardName), BaseColumns[i])
         == Some(CellValues(CardCells(card, fetched.GetOr(card), FormatComments(comments, names), listName, boardName))[i])
  {
    RowLayout(card, fetched, comments, names, listName, boardName);
    BaseCellsKept(BaseRow(card, fetched.GetOr(card), FormatComments(comments, names), listName, boardName),
                  PowerupLinks(fetched.GetOr(card).attachments, true), i);
  }

  /** A bucket other than Other Links has a column exactly when it received links, and
      the column holds those links joined by newlines; Other Links never has one. */
  lemma RowLinkCells(card: Card, fetched: Option<Card>, comments: seq<TrelloComment>, names: map<string, string>,
                     listName: string, boardName: string, b: Bucket)
    ensures Get(PrepareRow(card, fetched, comments, names, listName, boardName), BucketName(b))
         == if b != OtherLinks && BucketLinks(fetched.GetOr(card).attachments, b, true) != []
            then Some(Join(BucketLinks(fetched.GetOr(card).attachments, b, true), "\n"))
            else None
  {
    var atts := fetched.GetOr(card).attachments;
    var links := PowerupLinks(atts, true);
    RowLayout(card, fetched, comments, names, listName, boardName);
    LinkCellsKept(BaseRow(card, fetched.GetOr(card), FormatComments(comments, names), listName, boardName), links, b);
    PowerupBucketsDistinct(atts);
    PowerupLinksSpec(atts, true);
    LinkColumnsGet(links, b);
    if b != OtherLinks && BucketLinks(atts, b, true) != [] {
      var i :| 0 <= i < |links| && links[i].0 == b;
    }
  }

  // ---------------------------------------------------------------- tabulation

  /** `list(card_data[0].keys()) if card_data else []` */
  function Fieldnames(rows: seq<Dict<string, string>>): seq<string> {
    if |rows| == 0 then [] else Keys(rows[0])
  }

  /** Every key of the row is one of the fieldnames. */
  predicate Fits(row: Dict<string, string>, fieldnames: seq<string>) {
    forall i :: 0 <= i < |row| ==> row[i].0 in fieldnames
  }

  /** A row as `csv.DictReader` gives it back: every fieldname, "" where the written row
      lacked it. The file is written with `newline=''` but opened for reading without it,
      so each cell comes back with its line ends translated (`ReadNewlines`). */
  function Reread(row: Dict<string, string>, fieldnames: seq<string>): (r: Row)
    ensures forall k :: k in r <==> k in fieldnames
  {
    map k | k in fieldnames :: ReadNewlines(Get(row, k).GetOr(""))
  }

  /** Python's default `csv.field_size_limit()`: the reader raises `_csv.Error` on a field
      longer than this many characters. */
  const FieldSizeLimit: nat := 131072

  /** Every field of the header, as the reader parses it, is within the field limit. */
  predicate HeaderFits(fieldnames: seq<string>) {
    forall j :: 0 <= j < |fieldnames| ==> |ReadNewlines(fieldnames[j])| <= FieldSizeLimit
  }

  /** Every cell of a row, as the reader parses it, is within the field limit. */
  predicate CellsFit(row: Dict<string, string>, fieldnames: seq<string>) {
    forall k :: k in Reread(row, fieldnames) ==> |Reread(row, fieldnames)[k]| <= FieldSizeLimit
  }

  /** Writing the rows with `csv.DictWriter` under the first row's keys and reading them
      back with `csv.DictReader`, the text of each cell surviving the file. None is the
      ValueError the writer raises for a key outside the fieldnames, or the `_csv.Error`
      the reader raises for a field over the limit. */
  function WriteAndRead(rows: seq<Dict<string, string>>): (r: Option<seq<Row>>)
    ensures r.Some? <==>
              (forall i :: 0 <= i < |rows| ==> Fits(rows[i], Fieldnames(rows))) &&
              HeaderFits(Fieldnames(rows)) &&
              (forall i :: 0 <= i < |rows| ==> CellsFit(rows[i], Fieldnames(rows)))
    ensures r.Some? ==> |r.value| == |rows|
  {
    var fieldnames := Fieldnames(rows);
    if (forall i :: 0 <= i < |rows| ==> Fits(rows[i], fieldnames)) && HeaderFits(fieldnames) &&
       (forall i :: 0 <= i < |rows| ==> CellsFit(rows[i], fieldnames))
    then Some(Map((row: Dict<string, string>) => Reread(row, fieldnames), rows))
    else None
  }

  /** A cell that reads back longer than the field limit makes the read fail. */
  lemma LongCellRejected(rows: seq<Dict<string, string>>, i: int, k: string)
    requires 0 <= i < |rows| && k in Fieldnames(rows) && Get(rows[i], k).Some?
    requires |ReadNewlines(Get(rows[i], k).value)| > FieldSizeLimit
    ensures WriteAndRead(rows) == None
  {
    var read := Reread(rows[i], Fieldnames(rows));
    assert k in read && read[k] == ReadNewlines(Get(rows[i], k).value);
    assert !CellsFit(rows[i], Fieldnames(rows));
  }

  /** A later row with a key the first row lacks makes the write fail. */
  lemma NewKeyRejected(rows: seq<Dict<string, string>>, i: int, k: string)
    requires 0 < i < |rows|
    requires k in Keys(rows[i]) && k !in Keys(rows[0])
    ensures WriteAndRead(rows) == None
  {
    var j :| 0 <= j < |rows[i]| && Keys(rows[i])[j] == k;
  }

  /** What a successful round trip keeps: every cell of every row, its line ends
      translated, and "" for the columns a row lacked. */
  lemma WriteAndReadKeeps(rows: seq<Dict<string, string>>, i: int, k: string)
    requires WriteAndRead(rows).Some? && 0 <= i < |rows|
    ensures Get(rows[i], k).Some? ==> k in WriteAndRead(rows).value[i] && WriteAndRead(rows).value[i][k] == ReadNewlines(Get(rows[i], k).value)
    ensures Get(rows[i], k).None? && k in WriteAndRead(rows).value[i] ==> WriteAndRead(rows).value[i][k] == ""
  {
    GetFindsPair(rows[i], k);
  }

  /** The keys of all rows, in order of first appearance: the first row's keys, then the
      new keys of the rows after it. */
  function AllKeys(rows: seq<Dict<string, string>>): (r: seq<string>)
    ensures |rows| > 0 ==> |Keys(rows[0])| <= |r| && r[..|Keys(rows[0])|] == Keys(rows[0])
  {
    if |rows| == 0 then []
    else
      var first := Keys(rows[0]);
      first + Filter((k: string) => k !in first, AllKeys(rows[1..]))
  }

  /** A key is in `AllKeys` exactly when some row has it. */
  lemma {:induction false} AllKeysSpec(rows: seq<Dict<string, string>>, k: string)
    ensures k in AllKeys(rows) <==> exists i :: 0 <= i < |rows| && k in Keys(rows[i])
  {
    if |rows| > 0 {
      AllKeysSpec(rows[1..], k);
      AllKeysCons(rows, k);
      SomeRowCons(rows, k);
    }
  }

  /** The keys of all rows: the first row's, then any new ones of the rest. */
  lemma AllKeysCons(rows: seq<Dict<string, string>>, k: string)
    requires |rows| > 0
    ensures k in AllKeys(rows) <==> k in Keys(rows[0]) || k in AllKeys(rows[1..])
  {
    var first := Keys(rows[0]);
    var later := AllKeys(rows[1..]);
    var added := Filter((x: string) => x !in first, later);
    assert AllKeys(rows) == first + added;
    if k in later && k !in first {
      var x :| 0 <= x < |later| && later[x] == k;
      assert k in added;
    }
  }

  lemma SomeRowCons(rows: seq<Dict<string, string>>, k: string)
    requires |rows| > 0
    ensures (exists i :: 0 <= i < |rows| && k in Keys(rows[i]))
        <==> k in Keys(rows[0]) || exists i :: 0 <= i < |rows[1..]| && k in Keys(rows[1..][i])
  {
    if exists i :: 0 <= i < |rows[1..]| && k in Keys(rows[1..][i]) {
      var i :| 0 <= i < |rows[1..]| && k in Keys(rows[1..][i]);
      assert rows[1..][i] == rows[i + 1];
    }
    if exists i :: 0 <= i < |rows| && k in Keys(rows[i]) {
      var i :| 0 <= i < |rows| && k in Keys(rows[i]);
      if i > 0 {
        assert rows[1..][i - 1] == rows[i];
      }
    }
  }

  /** The corrected tabulation: the fieldnames are all rows' keys, so no row is refused. */
  function WriteAndReadAll(rows: seq<Dict<string, string>>): (r: seq<Row>)
    ensures |r| == |rows|
  {
    var fieldnames := AllKeys(rows);
    Map((row: Dict<string, string>) => Reread(row, fieldnames), rows)
  }

  /** The corrected tabulation keeps every cell, its line ends translated, and pads with
      "" to one common set of columns. */
  lemma WriteAndReadAllKeeps(rows: seq<Dict<string, string>>, i: int, k: string)
    requires 0 <= i < |rows|
    ensures Get(rows[i], k).Some? ==> k in WriteAndReadAll(rows)[i] && WriteAndReadAll(rows)[i][k] == ReadNewlines(Get(rows[i], k).value)
    ensures Get(rows[i], k).None? && k in WriteAndReadAll(rows)[i] ==> WriteAndReadAll(rows)[i][k] == ""
    ensures forall j :: 0 <= j < |rows| ==> (k in WriteAndReadAll(rows)[i] <==> k in WriteAndReadAll(rows)[j])
  {
    GetFindsPair(rows[i], k);
    AllKeysSpec(rows, k);
    if Get(rows[i], k).Some? {
      var j :| 0 <= j < |rows[i]| && rows[i][j] == (k, Get(rows[i], k).value);
      assert Keys(rows[i])[j] == k;
    }
  }

  /** Whenever the original tabulation succeeds, the corrected one gives the same rows. */
  lemma CorrectedAgrees(rows: seq<Dict<string, string>>)
    requires WriteAndRead(rows).Some?
    ensures WriteAndReadAll(rows) == WriteAndRead(rows).value
  {
    var f := Fieldnames(rows);
    var all := AllKeys(rows);
    forall k ensures k in f <==> k in all {
      FieldnameIffAnyKey(rows, k);
    }
    forall i | 0 <= i < |rows| ensures Reread(rows[i], all) == Reread(rows[i], f) {
      RereadSameNames(rows[i], all, f);
    }
  }

  /** When every row fits the first row's keys, those keys are all the rows' keys. */
  lemma FieldnameIffAnyKey(rows: seq<Dict<string, string>>, k: string)
    requires WriteAndRead(rows).Some?
    ensures k in Fieldnames(rows) <==> k in AllKeys(rows)
  {
    var f := Fieldnames(rows);
    var all := AllKeys(rows);
    AllKeysSpec(rows, k);
    if k in all {
      var i :| 0 <= i < |rows| && k in Keys(rows[i]);
      FitsKeys(rows[i], f, k);
    }
    if k in f {
      var x :| 0 <= x < |f| && f[x] == k;
      PrefixAt(all, |f|, x);
    }
  }

  /** A row that fits the fieldnames has only fieldnames as keys. */
  lemma FitsKeys(row: Dict<string, string>, f: seq<string>, k: string)
    requires Fits(row, f) && k in Keys(row)
    ensures k in f
  {
    var j :| 0 <= j < |row| && Keys(row)[j] == k;
    assert row[j].0 == k;
  }

  /** Reading back under the same set of names gives the same row. */
  lemma RereadSameNames(row: Dict<string, string>, f: seq<string>, g: seq<string>)
    requires forall k :: k in f <==> k in g
    ensures Reread(row, f) == Reread(row, g)
  {
  }

  /** A batch whose first card has no links of a bucket, followed by a card that has
      some, cannot be written: the bucket's column is missing from the fieldnames. */
  lemma LinkColumnBreaksWrite(first: Card, firstFetched: Option<Card>, firstComments: seq<TrelloComment>,
                              later: Card, laterFetched: Option<Card>, laterComments: seq<TrelloComment>,
                              names: map<string, string>, listName: string, boardName: string, b: Bucket)
    requires b != OtherLinks
    requires BucketLinks(firstFetched.GetOr(first).attachments, b, true) == []
    requires BucketLinks(laterFetched.GetOr(later).attachments, b, true) != []
    ensures WriteAndRead([PrepareRow(first, firstFetched, firstComments, names, listName, boardName),
                          PrepareRow(later, laterFetched, laterComments, names, listName, boardName)]) == None
  {
    RowLinkCells(first, firstFetched, firstComments, names, listName, boardName, b);
    RowLinkCells(later, laterFetched, laterComments, names, listName, boardName, b);
    LaterKeyRejected(PrepareRow(first, firstFetched, firstComments, names, listName, boardName),
                     PrepareRow(later, laterFetched, laterComments, names, listName, boardName), BucketName(b));
  }

  /** Two rows, the second with a key the first lacks, cannot be written. */
  lemma LaterKeyRejected(row0: Dict<string, string>, row1: Dict<string, string>, k: string)
    requires Get(row0, k).None? && Get(row1, k).Some?
    ensures WriteAndRead([row0, row1]) == None
  {
    GetFindsPair(row0, k);
    GetFindsPair(row1, k);
    var j :| 0 <= j < |row1| && row1[j] == (k, Get(row1, k).value);
    assert Keys(row1)[j] == k;
    NewKeyRejected([row0, row1], 1, k);
  }

  /** Concretely: a card without attachments followed by a card with a pull-request link
      makes the whole batch fail to write, and the corrected tabulation keeps the link. */
  lemma PullRequestBatchRejected(first: Card, later: Card, names: map<string, string>, listName: string, boardName: string)
    requires first.attachments == []
    requires later.attachments == [Attachment("PR", "github.com/pull/", false)]
    ensures WriteAndRead([PrepareRow(first, None, [], names, listName, boardName),
                          PrepareRow(later, None, [], names, listName, boardName)]) == None
    ensures GitHubPRsColumn in WriteAndReadAll([PrepareRow(first, None, [], names, listName, boardName),
                                                PrepareRow(later, None, [], names, listName, boardName)])[0]
  {
    PullRequestLink();
    var rows := [PrepareRow(first, None, [], names, listName, boardName), PrepareRow(later, None, [], names, listName, boardName)];
    assert BucketLinks(first.attachments, GitHubPRs, true) == [];
    LinkColumnBreaksWrite(first, None, [], later, None, [], names, listName, boardName, GitHubPRs);
    RowLinkCells(later, None, [], names, listName, boardName, GitHubPRs);
    WriteAndReadAllKeeps(rows, 1, GitHubPRsColumn);
    WriteAndReadAllKeeps(rows, 0, GitHubPRsColumn);
  }

  // ---------------------------------------------------------------- batches

  /** The remote lookups a batch needs: card details by id (None when the request
      fails) and the comments of a card. */
  datatype Remote = Remote(details: string -> Option<Card>, comments: string -> seq<TrelloComment>)

  /** What one run fixes: the user-mapping file (None when missing or unreadable), the
      chosen state, the project, the directory, the sprint and the default identity. */
  datatype Settings = Settings(
    mapping: Option<MappingFile>,
    targetState: string,
    projectId: string,
    users: seq<User>,
    sprint: Option<string>,
    defaultEmail: string)

  /** `board_data.get('name', 'Unknown Board')` */
  function BoardName(board: Board): string {
    board.name.GetOr("Unknown Board")
  }

  /** Whether the card details for an id could be fetched. */
  function Fetchable(details: string -> Option<Card>): string -> bool {
    (id: string) => details(id).Some?
  }

  /** The loop of `fetch_cards_by_ids` over the ids: each id whose details could be
      fetched appends its card and itself. */
  function FetchPairs(ids: seq<string>, details: string -> Option<Card>): (seq<Card>, seq<string>) {
    if |ids| == 0 then ([], [])
    else
      var rest := FetchPairs(ids[1..], details);
      match details(ids[0])
      case Some(card) => ([card] + rest.0, [ids[0]] + rest.1)
      case None => rest
  }

  lemma {:induction false} FetchPairsSpec(ids: seq<string>, details: string -> Option<Card>)
    ensures |FetchPairs(ids, details).0| == |FetchPairs(ids, details).1|
    ensures FetchPairs(ids, details).1 == Filter(Fetchable(details), ids)
    ensures forall i :: 0 <= i < |FetchPairs(ids, details).1| ==>
              details(FetchPairs(ids, details).1[i]) == Some(FetchPairs(ids, details).0[i])
  {
    if |ids| > 0 {
      FetchPairsSpec(ids[1..], details);
      var rest := FetchPairs(ids[1..], details);
      var r := FetchPairs(ids, details);
      if details(ids[0]).Some? {
        assert Fetchable(details)(ids[0]);
        assert forall i :: 1 <= i < |r.1| ==> r.1[i] == rest.1[i - 1] && r.0[i] == rest.0[i - 1];
      } else {
        assert !Fetchable(details)(ids[0]);
      }
    }
  }

  /** The cards whose details could be fetched, with their ids, in id order: one entry
      per fetchable id, repeats included. */
  function FetchByIds(ids: seq<string>, details: string -> Option<Card>): (r: (seq<Card>, seq<string>))
    ensures |r.0| == |r.1| <= |ids|
    ensures r.1 == Filter(Fetchable(details), ids)
    ensures forall i :: 0 <= i < |r.1| ==> r.1[i] in ids && details(r.1[i]) == Some(r.0[i])
    ensures forall j :: 0 <= j < |ids| && details(ids[j]).Some? ==> ids[j] in r.1
  {
    FetchPairsSpec(ids, details);
    FetchPairs(ids, details)
  }

  /** `fetch_cards_by_ids`: each item's card id, kept with its card when the details
      could be fetched. */
  function FetchCardsByIds(items: seq<string>, details: string -> Option<Card>): (r: (seq<Card>, seq<string>))
    ensures |r.0| == |r.1| <= |items|
    ensures r.1 == Filter(Fetchable(details), Map(ExtractCardId, items))
    ensures forall i :: 0 <= i < |r.1| ==> details(r.1[i]) == Some(r.0[i])
    ensures forall i :: 0 <= i < |r.1| ==> exists j :: 0 <= j < |items| && r.1[i] == ExtractCardId(items[j])
    ensures forall j :: 0 <= j < |items| && details(ExtractCardId(items[j])).Some? ==> ExtractCardId(items[j]) in r.1
  {
    var ids := Map(ExtractCardId, items);
    var r := FetchByIds(ids, details);
    assert forall i :: 0 <= i < |r.1| ==> exists j :: 0 <= j < |ids| && r.1[i] == ids[j];
    r
  }

  /** The rows `prepare_cards_for_import` builds for a batch. */
  function PrepareRows(cards: seq<Card>, remote: Remote, names: map<string, string>, listName: string, boardName: string): (r: seq<Dict<string, string>>)
    ensures |r| == |cards|
    ensures forall i :: 0 <= i < |cards| ==>
              r[i] == PrepareRow(cards[i], remote.details(cards[i].id), remote.comments(cards[i].id), names, listName, boardName)
  {
    Map((c: Card) => PrepareRow(c, remote.details(c.id), remote.comments(c.id), names, listName, boardName), cards)
  }

  /** The import context of a batch: one state key, the batch's List value. */
  function BatchContext(settings: Settings, listName: string): Context {
    Context(settings.projectId, BatchStateMap(listName, settings.targetState), ImportUserMap(settings.mapping),
            settings.users, settings.sprint, settings.defaultEmail)
  }

  /** One batch from cards to issue plans: rows prepared, tabulated (with every row's
      keys as fieldnames), read back and imported under the batch's state map. */
  function Batch(cards: seq<Card>, remote: Remote, listName: string, boardName: string, settings: Settings): (r: seq<seq<Step>>)
    ensures |r| == |cards|
  {
    var rows := WriteAndReadAll(PrepareRows(cards, remote, DisplayNameTable(settings.mapping), listName, boardName));
    ImportRows(rows, BatchContext(settings, listName))
  }

  /** Each row imported under one context, in order. */
  function ImportRows(rows: seq<Row>, ctx: Context): (r: seq<seq<Step>>)
    ensures |r| == |rows|
    ensures forall i :: 0 <= i < |rows| ==> |r[i]| >= 1 && r[i] == ImportCard(rows[i], ctx)
  {
    Map((row: Row) => ImportCard(row, ctx), rows)
  }

  /** `import_list`: nothing when the list has no open cards. */
  function ImportList(board: Board, listName: string, remote: Remote, settings: Settings): (r: seq<seq<Step>>)
    ensures |r| == |FetchCardsFromList(board, listName)|
  {
    var cards := FetchCardsFromList(board, listName);
    if cards == [] then [] else Batch(cards, remote, listName, BoardName(board), settings)
  }

  /** `import_cards`: nothing when no card could be fetched. */
  function ImportCards(board: Board, items: seq<string>, remote: Remote, settings: Settings): (r: seq<seq<Step>>)
    ensures |r| == |FetchCardsByIds(items, remote.details).0|
  {
    var cards := FetchCardsByIds(items, remote.details).0;
    if cards == [] then [] else Batch(cards, remote, SelectedCardsLabel, BoardName(board), settings)
  }

  // ---------------------------------------------------------------- the batch as written

  // The functions above tabulate with the corrected writer. The source's writer raises on
  // a batch whose later row has a column the first row lacks, and its reader raises on a
  // field over the limit; nothing catches either, so the whole run stops before any issue
  // is created. The members below model that, with None for the raise.

  /** One batch as the source runs it: None when the write refuses a row or the read
      meets a field over the limit, and otherwise exactly the corrected batch's plans. */
  function BatchAsWritten(cards: seq<Card>, remote: Remote, listName: string, boardName: string, settings: Settings): (r: Option<seq<seq<Step>>>)
    ensures r.None? <==> WriteAndRead(PrepareRows(cards, remote, DisplayNameTable(settings.mapping), listName, boardName)).None?
    ensures r.Some? ==> r.value == Batch(cards, remote, listName, boardName, settings)
  {
    var rows := PrepareRows(cards, remote, DisplayNameTable(settings.mapping), listName, boardName);
    match WriteAndRead(rows)
    case Some(read) =>
      CorrectedAgrees(rows);
      Some(ImportRows(read, BatchContext(settings, listName)))
    case None => None
  }

  /** `import_list` as the source runs it: nothing for a list without open cards, a raise
      when the batch cannot be written or read back, and otherwise the corrected plans. */
  function ImportListAsWritten(board: Board, listName: string, remote: Remote, settings: Settings): (r: Option<seq<seq<Step>>>)
    ensures r.None? <==>
              (FetchCardsFromList(board, listName) != [] &&
               WriteAndRead(PrepareRows(FetchCardsFromList(board, listName), remote, DisplayNameTable(settings.mapping),
                                        listName, BoardName(board))).None?)
    ensures r.Some? ==> r.value == ImportList(board, listName, remote, settings)
  {
    var cards := FetchCardsFromList(board, listName);
    if cards == [] then Some([]) else BatchAsWritten(cards, remote, listName, BoardName(board), settings)
  }

  /** `import_cards` as the source runs it, under the Selected Cards label. */
  function ImportCardsAsWritten(board: Board, items: seq<string>, remote: Remote, settings: Settings): (r: Option<seq<seq<Step>>>)
    ensures r.None? <==>
              (FetchCardsByIds(items, remote.details).0 != [] &&
               WriteAndRead(PrepareRows(FetchCardsByIds(items, remote.details).0, remote, DisplayNameTable(settings.mapping),
                                        SelectedCardsLabel, BoardName(board))).None?)
    ensures r.Some? ==> r.value == ImportCards(board, items, remote, settings)
  {
    var cards := FetchCardsByIds(items, remote.details).0;
    if cards == [] then Some([]) else BatchAsWritten(cards, remote, SelectedCardsLabel, BoardName(board), settings)
  }

  /** A batch whose first card has no links of a bucket and a later card that has some
      plans nothing as written, though the corrected batch plans every card. */
  lemma BatchAsWrittenRejected(cards: seq<Card>, remote: Remote, listName: string, boardName: string, settings: Settings,
                               i: int, b: Bucket)
    requires 0 < i < |cards| && b != OtherLinks
    requires BucketLinks(remote.details(cards[0].id).GetOr(cards[0]).attachments, b, true) == []
    requires BucketLinks(remote.details(cards[i].id).GetOr(cards[i]).attachments, b, true) != []
    ensures BatchAsWritten(cards, remote, listName, boardName, settings) == None
  {
    var names := DisplayNameTable(settings.mapping);
    var rows := PrepareRows(cards, remote, names, listName, boardName);
    RowLinkCells(cards[0], remote.details(cards[0].id), remote.comments(cards[0].id), names, listName, boardName, b);
    RowLinkCells(cards[i], remote.details(cards[i].id), remote.comments(cards[i].id), names, listName, boardName, b);
    RowKeyRejected(rows, i, BucketName(b));
  }

  /** A card whose base cell reads back longer than the field limit makes its whole batch
      raise as written. */
  lemma LongCellBatchRejected(cards: seq<Card>, remote: Remote, listName: string, boardName: string, settings: Settings,
                              i: int, c: int)
    requires 0 <= i < |cards| && 0 <= c < |BaseColumns|
    requires |ReadNewlines(CellValues(BatchCells(cards, remote, DisplayNameTable(settings.mapping), listName, boardName, i))[c])|
             > FieldSizeLimit
    ensures BatchAsWritten(cards, remote, listName, boardName, settings) == None
  {
    var names := DisplayNameTable(settings.mapping);
    var rows := PrepareRows(cards, remote, names, listName, boardName);
    assert WriteAndRead(rows) == None by {
      var k := BaseColumns[c];
      assert rows[i] == PrepareRow(cards[i], remote.details(cards[i].id), remote.comments(cards[i].id), names, listName, boardName);
      RowBaseCells(cards[i], remote.details(cards[i].id), remote.comments(cards[i].id), names, listName, boardName, c);
      BaseColumnInFieldnames(cards, remote, names, listName, boardName, c);
      LongCellRejected(rows, i, k);
    }
  }

  /** Every base column is among a batch's fieldnames, since the first row has them all. */
  lemma BaseColumnInFieldnames(cards: seq<Card>, remote: Remote, names: map<string, string>, listName: string, boardName: string,
                               c: int)
    requires 0 < |cards| && 0 <= c < |BaseColumns|
    ensures BaseColumns[c] in Fieldnames(PrepareRows(cards, remote, names, listName, boardName))
  {
    var rows := PrepareRows(cards, remote, names, listName, boardName);
    assert rows[0] == PrepareRow(cards[0], remote.details(cards[0].id), remote.comments(cards[0].id), names, listName, boardName);
    BaseColumnKey(cards[0], remote.details(cards[0].id), remote.comments(cards[0].id), names, listName, boardName, c);
  }

  /** A prepared row starts with the base columns, in order. */
  lemma BaseColumnKey(card: Card, fetched: Option<Card>, comments: seq<TrelloComment>, names: map<string, string>,
                      listName: string, boardName: string, c: int)
    requires 0 <= c < |BaseColumns|
    ensures c < |Keys(PrepareRow(card, fetched, comments, names, listName, boardName))|
    ensures Keys(PrepareRow(card, fetched, comments, names, listName, boardName))[c] == BaseColumns[c]
  {
    RowLayout(card, fetched, comments, names, listName, boardName);
    var base := BaseRow(card, fetched.GetOr(card), FormatComments(comments, names), listName, boardName);
    assert Keys(base)[c] == BaseColumns[c];
    assert PrepareRow(card, fetched, comments, names, listName, boardName)[c] == base[c];
  }

  /** A later row with a cell under a key the first row lacks makes the write fail. */
  lemma RowKeyRejected(rows: seq<Dict<string, string>>, i: int, k: string)
    requires 0 < i < |rows|
    requires Get(rows[0], k).None? && Get(rows[i], k).Some?
    ensures WriteAndRead(rows) == None
  {
    GetFindsPair(rows[0], k);
    GetFindsPair(rows[i], k);
    var j :| 0 <= j < |rows[i]| && rows[i][j] == (k, Get(rows[i], k).value);
    assert Keys(rows[i])[j] == k;
    NewKeyRejected(rows, i, k);
  }

  /** The base cells of card `i` of a batch. */
  function BatchCells(cards: seq<Card>, remote: Remote, names: map<string, string>, listName: string, boardName: string, i: int): BaseCells
    requires 0 <= i < |cards|
  {
    CardCells(cards[i], remote.details(cards[i].id).GetOr(cards[i]), FormatComments(remote.comments(cards[i].id), names),
              listName, boardName)
  }

  /** A row read back from a batch holds each base cell of its card, line ends
      translated, under that cell's column, whatever link columns the other rows bring. */
  lemma BatchRowCell(cards: seq<Card>, remote: Remote, names: map<string, string>, listName: string, boardName: string,
                     i: int, c: int)
    requires 0 <= i < |cards| && 0 <= c < |BaseColumns|
    ensures Field(WriteAndReadAll(PrepareRows(cards, remote, names, listName, boardName))[i], BaseColumns[c])
         == ReadNewlines(CellValues(BatchCells(cards, remote, names, listName, boardName, i))[c])
  {
    var rows := PrepareRows(cards, remote, names, listName, boardName);
    var card := cards[i];
    var fetched := remote.details(card.id);
    var comments := remote.comments(card.id);
    assert rows[i] == PrepareRow(card, fetched, comments, names, listName, boardName);
    RowBaseCells(card, fetched, comments, names, listName, boardName, c);
    WriteAndReadAllKeeps(rows, i, BaseColumns[c]);
  }

  /** A row read back from a batch carries the batch's List value, line ends translated. */
  lemma BatchRowList(cards: seq<Card>, remote: Remote, names: map<string, string>, listName: string, boardName: string, i: int)
    requires 0 <= i < |cards|
    ensures Field(WriteAndReadAll(PrepareRows(cards, remote, names, listName, boardName))[i], ListColumn) == ReadNewlines(listName)
  {
    BatchRowCell(cards, remote, names, listName, boardName, i, 1);
    ListCell(BatchCells(cards, remote, names, listName, boardName, i));
  }

  /** The labels the importer sends for a card are the card's label names, in order,
      when every name reads back cleanly: through the comma split, and without a carriage
      return for the file to translate. */
  lemma BatchLabels(cards: seq<Card>, remote: Remote, names: map<string, string>, listName: string, boardName: string, i: int)
    requires 0 <= i < |cards|
    requires forall j :: 0 <= j < |cards[i].labels| ==> CleanName(LabelName(cards[i].labels[j]))
    requires forall j :: 0 <= j < |cards[i].labels| ==> '\r' !in LabelName(cards[i].labels[j])
    ensures Labels(WriteAndReadAll(PrepareRows(cards, remote, names, listName, boardName))[i])
         == Map(LabelName, cards[i].labels)
  {
    var row := WriteAndReadAll(PrepareRows(cards, remote, names, listName, boardName))[i];
    BatchRowCell(cards, remote, names, listName, boardName, i, 7);
    LabelsCell(BatchCells(cards, remote, names, listName, boardName, i));
    LabelsNoCr(cards[i].labels);
    ReadNewlinesPlain(FormatLabels(cards[i].labels));
    LabelsOfCell(row, cards[i].labels);
  }

  /** A Labels cell written by `format_labels` reads back as the label names. */
  lemma LabelsOfCell(row: Row, labels: seq<Label>)
    requires forall j :: 0 <= j < |labels| ==> CleanName(LabelName(labels[j]))
    requires Field(row, LabelsColumn) == FormatLabels(labels)
    ensures Labels(row) == Map(LabelName, labels)
  {
    LabelNamesClean(labels);
    JoinedLabelsReadBack(row, Map(LabelName, labels));
  }

  /** Label names without carriage returns give a Labels cell without one. */
  lemma LabelsNoCr(labels: seq<Label>)
    requires forall j :: 0 <= j < |labels| ==> '\r' !in LabelName(labels[j])
    ensures '\r' !in FormatLabels(labels)
  {
    if |labels| > 0 {
      assert ", " == [',', ' '];
      JoinNoCr(Map(LabelName, labels), ", ");
    }
  }

  lemma LabelNamesClean(labels: seq<Label>)
    requires forall j :: 0 <= j < |labels| ==> CleanName(LabelName(labels[j]))
    ensures forall j :: 0 <= j < |Map(LabelName, labels)| ==> CleanName(Map(LabelName, labels)[j])
  {
  }

  /** The comments the importer posts for a card are its formatted comments with text, in
      order, when each of them reads back cleanly: through the separator split, and
      without a carriage return for the file to translate. */
  lemma BatchComments(cards: seq<Card>, remote: Remote, names: map<string, string>, listName: string, boardName: string, i: int)
    requires 0 <= i < |cards|
    requires forall j :: 0 <= j < |KeptComments(remote.comments(cards[i].id), names)| ==>
               CleanComment(KeptComments(remote.comments(cards[i].id), names)[j])
    requires forall j :: 0 <= j < |KeptComments(remote.comments(cards[i].id), names)| ==>
               '\r' !in KeptComments(remote.comments(cards[i].id), names)[j]
    ensures Comments(WriteAndReadAll(PrepareRows(cards, remote, names, listName, boardName))[i])
         == KeptComments(remote.comments(cards[i].id), names)
  {
    var row := WriteAndReadAll(PrepareRows(cards, remote, names, listName, boardName))[i];
    BatchRowCell(cards, remote, names, listName, boardName, i, 17);
    CommentsCell(BatchCells(cards, remote, names, listName, boardName, i));
    CommentsNoCr(remote.comments(cards[i].id), names);
    ReadNewlinesPlain(FormatComments(remote.comments(cards[i].id), names));
    CommentsOfCell(row, remote.comments(cards[i].id), names);
  }

  /** Kept comments without carriage returns give a Comments cell without one. */
  lemma CommentsNoCr(comments: seq<TrelloComment>, names: map<string, string>)
    requires forall j :: 0 <= j < |KeptComments(comments, names)| ==> '\r' !in KeptComments(comments, names)[j]
    ensures '\r' !in FormatComments(comments, names)
  {
    if KeptComments(comments, names) != [] {
      assert CommentSeparator == ['\n', '-', '-', '-', '\n'];
      JoinNoCr(KeptComments(comments, names), CommentSeparator);
    }
  }

  /** A Comments cell written by the migration reads back as the kept comments. */
  lemma CommentsOfCell(row: Row, comments: seq<TrelloComment>, names: map<string, string>)
    requires forall j :: 0 <= j < |KeptComments(comments, names)| ==> CleanComment(KeptComments(comments, names)[j])
    requires Field(row, CommentsColumn) == FormatComments(comments, names)
    ensures Comments(row) == KeptComments(comments, names)
  {
    JoinedCommentsReadBack(row, KeptComments(comments, names));
  }

  /** The priority the importer sends for a card is the destination name of the one
      read from its plugin data, or "" (no update) when there is none. */
  lemma BatchPriority(cards: seq<Card>, remote: Remote, names: map<string, string>, listName: string, boardName: string, i: int)
    requires 0 <= i < |cards|
    ensures Strip(Field(WriteAndReadAll(PrepareRows(cards, remote, names, listName, boardName))[i], PriorityColumn))
         == RowPriority(remote.details(cards[i].id).GetOr(cards[i]).pluginData)
  {
    var p := RowPriority(remote.details(cards[i].id).GetOr(cards[i]).pluginData);
    BatchRowCell(cards, remote, names, listName, boardName, i, 8);
    PriorityCell(BatchCells(cards, remote, names, listName, boardName, i));
    PriorityNoCr(p);
    ReadNewlinesPlain(p);
    PriorityTrimmed(p);
  }

  /** No destination priority name holds a carriage return. */
  lemma PriorityNoCr(p: string)
    requires p == "" || p in {"Highest", "Critical", "High", "Medium", "Low"}
    ensures '\r' !in p
  {
    if p != "" {
      assert p == ['H', 'i', 'g', 'h', 'e', 's', 't'] || p == ['C', 'r', 'i', 't', 'i', 'c', 'a', 'l']
          || p == ['H', 'i', 'g', 'h'] || p == ['M', 'e', 'd', 'i', 'u', 'm'] || p == ['L', 'o', 'w'];
    }
  }

  /** `str(n)` holds digits and perhaps a minus sign, never a carriage return. */
  lemma IntToStringNoCr(n: int)
    ensures '\r' !in IntToString(n)
  {
    var s := IntToString(n);
    if n < 0 {
      var digits := NatToString(-n);
      assert s == "-" + digits;
      forall j | 0 <= j < |s| ensures s[j] != '\r' {
        if j > 0 {
          assert s[j] == digits[j - 1] && IsDigit(digits[j - 1]);
        }
      }
    } else {
      assert forall j :: 0 <= j < |s| ==> IsDigit(s[j]);
    }
  }

  /** Every destination priority name, and "", is its own strip. */
  lemma PriorityTrimmed(p: string)
    requires p == "" || p in {"Highest", "Critical", "High", "Medium", "Low"}
    ensures Strip(p) == p
  {
    if p != "" {
      assert p[0] in "HCML" && p[|p| - 1] in "thmlw";
    }
    StripTrimmed(p);
  }

  /** The story points the importer sends for a card are the ones read from its plugin
      data, when they are not negative. */
  lemma BatchStoryPoints(cards: seq<Card>, remote: Remote, names: map<string, string>, listName: string, boardName: string, i: int)
    requires 0 <= i < |cards|
    ensures StoryPoints(WriteAndReadAll(PrepareRows(cards, remote, names, listName, boardName))[i])
         == match CardStoryPoints(remote.details(cards[i].id).GetOr(cards[i]).pluginData)
            case Some(n) => if n >= 0 then Some(n as nat) else None
            case None => None
  {
    var row := WriteAndReadAll(PrepareRows(cards, remote, names, listName, boardName))[i];
    BatchRowCell(cards, remote, names, listName, boardName, i, 9);
    PointsCell(BatchCells(cards, remote, names, listName, boardName, i));
    match CardStoryPoints(remote.details(cards[i].id).GetOr(cards[i]).pluginData)
    case Some(n) =>
      IntToStringNoCr(n);
      ReadNewlinesPlain(IntToString(n));
      StoryPointsReadBack(row, n);
    case None =>
      assert Field(row, StoryPointsColumn) == "";
      StripTrimmed("");
  }

  /** Every issue of a batch is created with the one State the batch was given, unless
      the list name holds a carriage return: the List value then reads back changed, no
      longer matches the state map's key, and no issue gets a State. */
  lemma BatchSharesState(cards: seq<Card>, remote: Remote, listName: string, boardName: string, settings: Settings, i: int)
    requires 0 <= i < |cards|
    ensures |Batch(cards, remote, listName, boardName, settings)[i]| >= 1
    ensures Batch(cards, remote, listName, boardName, settings)[i][0].request.customFields
         == if '\r' in listName then None else Some([StateField(settings.targetState)])
  {
    var rows := WriteAndReadAll(PrepareRows(cards, remote, DisplayNameTable(settings.mapping), listName, boardName));
    BatchRowList(cards, remote, DisplayNameTable(settings.mapping), listName, boardName, i);
    if '\r' in listName {
      ReadNewlinesChanges(listName);
      ImportedNoState(rows, BatchContext(settings, listName), i, listName, settings.targetState);
    } else {
      ReadNewlinesPlain(listName);
      ImportedState(rows, BatchContext(settings, listName), i, listName, settings.targetState);
    }
  }

  /** A row whose List value is not the state map's one key is created without a State. */
  lemma ImportedNoState(rows: seq<Row>, ctx: Context, i: int, listName: string, state: string)
    requires 0 <= i < |rows| && Field(rows[i], ListColumn) != listName
    requires ctx.stateMap == BatchStateMap(listName, state)
    ensures |ImportRows(rows, ctx)[i]| >= 1
    ensures ImportRows(rows, ctx)[i][0].request.customFields == None
  {
    assert InitialFields(rows[i], ctx.stateMap) == [];
  }

  /** A row whose List value is the state map's one key is created in that state. */
  lemma ImportedState(rows: seq<Row>, ctx: Context, i: int, listName: string, state: string)
    requires 0 <= i < |rows| && Field(rows[i], ListColumn) == listName
    requires ctx.stateMap == BatchStateMap(listName, state)
    ensures |ImportRows(rows, ctx)[i]| >= 1
    ensures ImportRows(rows, ctx)[i][0].request.customFields == Some([StateField(state)])
  {
    assert InitialFields(rows[i], ctx.stateMap) == [StateField(state)];
  }
}
