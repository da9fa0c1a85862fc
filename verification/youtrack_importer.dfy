/** The import side (youtrack_importer.py): turning one row into the issue to create
    and the ordered updates that follow it, the column-to-state table of an agile board,
    and the filter of agile boards by project. */
module YouTrackImporter {
  import opened Wrappers
  import opened Seqs
  import opened Text
  import opened Scalars
  import opened PyDict
  import opened CardRow

  // ---------------------------------------------------------------- inputs

  /** One `state_map` entry: the State value to set and the board column it belongs to. */
  datatype StateInfo = StateInfo(name: string, column: string)

  /** `state_map`: row List value to state entry. */
  type StateMap = map<string, StateInfo>

  /** One `get_users` entry; a missing key reads as "". */
  datatype User = User(email: string, login: string)

  // ---------------------------------------------------------------- description

  /** How a column shows up in the description. */
  datatype SectionKind = Plain | CardLink | Titled

  /** The description sections, in the order the source appends them. */
  const DescriptionSections: seq<(string, SectionKind)> := [
    (DescriptionColumn, Plain),
    (UrlColumn, CardLink),
    (ChecklistsColumn, Titled),
    (AttachmentsColumn, Titled),
    (GitHubPRsColumn, Titled),
    (GitHubIssuesColumn, Titled),
    (GitHubCommitsColumn, Titled),
    (GoogleDriveFilesColumn, Titled)
  ]

  const CardLinkLead := "\n**Original Trello Card:** "

  /** The text of one section holding `value`. */
  function RenderSection(column: string, kind: SectionKind, value: string): (r: string)
    ensures value != "" ==> r != ""
  {
    match kind
    case Plain => value
    case CardLink => CardLinkLead + value
    case Titled => "\n**" + column + ":**\n" + value
  }

  /** The part one section contributes on its own: its rendered value, or nothing when
      its column is empty or absent. */
  function SectionPart(row: Row, column: string, kind: SectionKind): seq<string> {
    var value := Field(row, column);
    if value != "" then [RenderSection(column, kind, value)] else []
  }

  /** The section parts of a row, section by section. */
  function SectionParts(row: Row, sections: seq<(string, SectionKind)>): seq<string> {
    if |sections| == 0 then [] else SectionPart(row, sections[0].0, sections[0].1) + SectionParts(row, sections[1..])
  }

  /** At most one part per section, none of them empty, and no parts exactly when every
      section's column is empty or absent. */
  lemma {:induction false} SectionPartsSpec(row: Row, sections: seq<(string, SectionKind)>)
    ensures |SectionParts(row, sections)| <= |sections|
    ensures forall i :: 0 <= i < |SectionParts(row, sections)| ==> SectionParts(row, sections)[i] != ""
    ensures SectionParts(row, sections) == [] <==> forall i :: 0 <= i < |sections| ==> Field(row, sections[i].0) == ""
  {
    if |sections| > 0 {
      SectionPartsSpec(row, sections[1..]);
      assert forall i :: 1 <= i < |sections| ==> sections[i] == sections[1..][i - 1];
      var value := Field(row, sections[0].0);
      if value != "" {
        assert RenderSection(sections[0].0, sections[0].1, value) != "";
      }
    }
  }

  /** One section on its own gives its rendered value exactly when its column is non-empty. */
  lemma SectionPartsSingle(row: Row, column: string, kind: SectionKind)
    ensures SectionParts(row, [(column, kind)]) ==
              if Field(row, column) != "" then [RenderSection(column, kind, Field(row, column))] else []
  {
    assert [(column, kind)][1..] == [];
  }

  /** Sections contribute in order: the parts of two section lists one after the other are
      the parts of the first followed by those of the second. */
  lemma {:induction false} SectionPartsConcat(row: Row, s: seq<(string, SectionKind)>, t: seq<(string, SectionKind)>)
    ensures SectionParts(row, s + t) == SectionParts(row, s) + SectionParts(row, t)
  {
    if |s| == 0 {
      assert s + t == t;
    } else {
      assert (s + t)[0] == s[0];
      assert (s + t)[1..] == s[1..] + t;
      SectionPartsConcat(row, s[1..], t);
    }
  }

  /** The description's parts, section by section. */
  lemma DescriptionParts(row: Row)
    ensures SectionParts(row, DescriptionSections) ==
              SectionPart(row, DescriptionColumn, Plain) + (SectionPart(row, UrlColumn, CardLink)
              + (SectionPart(row, ChecklistsColumn, Titled) + (SectionPart(row, AttachmentsColumn, Titled)
              + (SectionPart(row, GitHubPRsColumn, Titled) + (SectionPart(row, GitHubIssuesColumn, Titled)
              + (SectionPart(row, GitHubCommitsColumn, Titled) + SectionPart(row, GoogleDriveFilesColumn, Titled)))))))
  {
    var d := DescriptionSections;
    assert d[0..] == d;
    SectionPartsStep(row, d, 0);
    SectionPartsStep(row, d, 1);
    SectionPartsStep(row, d, 2);
    SectionPartsStep(row, d, 3);
    SectionPartsStep(row, d, 4);
    SectionPartsStep(row, d, 5);
    SectionPartsStep(row, d, 6);
    assert d[7..] == [(GoogleDriveFilesColumn, Titled)];
    SectionPartsSingle(row, GoogleDriveFilesColumn, Titled);
  }

  /** The parts from section `k` on: section `k`'s part, then those after it. */
  lemma SectionPartsStep(row: Row, sections: seq<(string, SectionKind)>, k: int)
    requires 0 <= k < |sections|
    ensures SectionParts(row, sections[k..]) == SectionPart(row, sections[k].0, sections[k].1) + SectionParts(row, sections[k + 1..])
  {
    assert sections[k..][1..] == sections[k + 1..];
  }

  /** The issue description: the parts joined by blank lines. The description text comes
      first, then the card link, then the titled sections in their fixed order. */
  function ComposeDescription(row: Row): (r: string)
    ensures r == "" <==> forall i :: 0 <= i < |DescriptionSections| ==> Field(row, DescriptionSections[i].0) == ""
    ensures r == Join(SectionPart(row, DescriptionColumn, Plain) + (SectionPart(row, UrlColumn, CardLink)
                      + (SectionPart(row, ChecklistsColumn, Titled) + (SectionPart(row, AttachmentsColumn, Titled)
                      + (SectionPart(row, GitHubPRsColumn, Titled) + (SectionPart(row, GitHubIssuesColumn, Titled)
                      + (SectionPart(row, GitHubCommitsColumn, Titled) + SectionPart(row, GoogleDriveFilesColumn, Titled))))))),
                      "\n\n")
  {
    SectionPartsSpec(row, DescriptionSections);
    DescriptionParts(row);
    Join(SectionParts(row, DescriptionSections), "\n\n")
  }

  /** Only the section columns matter: rows that agree on them get the same parts. */
  lemma {:induction false} SectionPartsFrame(a: Row, b: Row, sections: seq<(string, SectionKind)>)
    requires forall i :: 0 <= i < |sections| ==> Field(a, sections[i].0) == Field(b, sections[i].0)
    ensures SectionParts(a, sections) == SectionParts(b, sections)
  {
    if |sections| > 0 {
      assert forall i :: 1 <= i < |sections| ==> sections[i] == sections[1..][i - 1];
      SectionPartsFrame(a, b, sections[1..]);
    }
  }

  /** Columns outside the eight sections, Other Links among them, never change the
      description. */
  lemma DescriptionFrame(a: Row, b: Row)
    requires forall i :: 0 <= i < |DescriptionSections| ==>
               Field(a, DescriptionSections[i].0) == Field(b, DescriptionSections[i].0)
    ensures ComposeDescription(a) == ComposeDescription(b)
  {
    SectionPartsFrame(a, b, DescriptionSections);
  }

  /** A row with only a description and a URL gets the description, a blank line, and
      the card link. */
  lemma DescriptionWithLink(row: Row, desc: string, url: string)
    requires desc != "" && url != ""
    requires Field(row, DescriptionColumn) == desc && Field(row, UrlColumn) == url
    requires forall i :: 2 <= i < |DescriptionSections| ==> Field(row, DescriptionSections[i].0) == ""
    ensures ComposeDescription(row) == desc + "\n\n" + CardLinkLead + url
  {
    assert Field(row, DescriptionSections[2].0) == "" && Field(row, DescriptionSections[3].0) == "";
    assert Field(row, DescriptionSections[4].0) == "" && Field(row, DescriptionSections[5].0) == "";
    assert Field(row, DescriptionSections[6].0) == "" && Field(row, DescriptionSections[7].0) == "";
    var titled := SectionPart(row, ChecklistsColumn, Titled) + (SectionPart(row, AttachmentsColumn, Titled)
                  + (SectionPart(row, GitHubPRsColumn, Titled) + (SectionPart(row, GitHubIssuesColumn, Titled)
                  + (SectionPart(row, GitHubCommitsColumn, Titled) + SectionPart(row, GoogleDriveFilesColumn, Titled)))));
    assert titled == [];
    assert SectionPart(row, DescriptionColumn, Plain) + (SectionPart(row, UrlColumn, CardLink) + titled)
        == [desc, CardLinkLead + url];
    assert Join([desc, CardLinkLead + url], "\n\n") == desc + "\n\n" + Join([CardLinkLead + url], "\n\n");
  }

  // ---------------------------------------------------------------- issue creation

  /** The custom field `import_trello_card` may send with the new issue. */
  datatype CustomField = StateField(stateName: string)

  /** The State field, sent exactly when the row's List (or "" when missing) is a key of
      the state map. */
  function InitialFields(row: Row, stateMap: StateMap): (r: seq<CustomField>)
    ensures |r| <= 1
    ensures |r| == 1 <==> Field(row, ListColumn) in stateMap
    ensures |r| == 1 ==> r[0] == StateField(stateMap[Field(row, ListColumn)].name)
  {
    var list := Field(row, ListColumn);
    if list in stateMap then [StateField(stateMap[list].name)] else []
  }

  /** The `create_issue` payload: the description and the custom fields are left out when
      empty. */
  datatype CreateRequest = CreateRequest(
    projectId: string,
    summary: string,
    description: Option<string>,
    customFields: Option<seq<CustomField>>)

  function CreatePayload(projectId: string, summary: string, description: string, fields: seq<CustomField>): (r: CreateRequest)
    ensures r.description.Some? <==> description != ""
    ensures r.description.Some? ==> r.description.value == description
    ensures r.customFields.Some? <==> fields != []
    ensures r.customFields.Some? ==> r.customFields.value == fields
  {
    CreateRequest(
      projectId,
      summary,
      if description != "" then Some(description) else None,
      if fields != [] then Some(fields) else None)
  }

  /** `card_data.get('Card Name', 'Untitled')`: only a missing column gives "Untitled". */
  function Summary(row: Row): (r: string)
    ensures CardNameColumn in row ==> r == row[CardNameColumn]
    ensures CardNameColumn !in row ==> r == "Untitled"
  {
    if CardNameColumn in row then row[CardNameColumn] else "Untitled"
  }


  // ---------------------------------------------------------------- assignees

  function LowerAll(xs: seq<string>): (r: seq<string>)
    ensures |r| == |xs| && forall i :: 0 <= i < |xs| ==> r[i] == Lower(xs[i])
  {
    if |xs| == 0 then [] else [Lower(xs[0])] + LowerAll(xs[1..])
  }

  /** The trimmed, lowercased, non-empty comma pieces of a column. */
  function CommaList(s: string): (r: seq<string>)
    ensures forall i :: 0 <= i < |r| ==> r[i] != ""
  {
    LowerAll(StrippedNonBlank(Split(s, ",")))
  }

  /** The identifiers tried for assignment: Member Usernames, and Members only when that
      yields none. */
  function Identifiers(row: Row): (r: seq<string>)
    ensures CommaList(Field(row, MemberUsernamesColumn)) != [] ==> r == CommaList(Field(row, MemberUsernamesColumn))
    ensures CommaList(Field(row, MemberUsernamesColumn)) == [] ==> r == CommaList(Field(row, MembersColumn))
  {
    var fromUsernames := if Field(row, MemberUsernamesColumn) != "" then CommaList(Field(row, MemberUsernamesColumn)) else [];
    if fromUsernames == [] && Field(row, MembersColumn) != "" then CommaList(Field(row, MembersColumn))
    else fromUsernames
  }

  function Listed(u: User): bool {
    u.email != "" && u.login != ""
  }

  function DirectoryEntry(u: User): (string, string) {
    (Lower(u.email), u.login)
  }

  /** `email_to_login`: lowercased email to login, for users with both; a later user
      with the same email wins. */
  function EmailToLogin(users: seq<User>): (r: Dict<string, string>)
    ensures forall e :: Get(r, e) == LastValue(Map(DirectoryEntry, Filter(Listed, users)), e)
  {
    FromPairs(Map(DirectoryEntry, Filter(Listed, users)))
  }

  /** The login one identifier resolves to, through the user map and then the directory. */
  function ResolveOne(id: string, userMap: map<string, string>, directory: Dict<string, string>): (r: Option<string>)
    ensures r.Some? <==> id in userMap && Get(directory, Lower(userMap[id])).Some? && Get(directory, Lower(userMap[id])).value != ""
    ensures r.Some? ==> r == Get(directory, Lower(userMap[id]))
  {
    if id in userMap then
      match Get(directory, Lower(userMap[id]))
      case Some(login) => if login != "" then Some(login) else None
      case None => None
    else None
  }

  function Resolved(id: string, userMap: map<string, string>, directory: Dict<string, string>): seq<string> {
    match ResolveOne(id, userMap, directory)
    case Some(l) => [l]
    case None => []
  }

  /** The resolved logins, in identifier order; unresolved identifiers are dropped. */
  function ResolveLogins(ids: seq<string>, userMap: map<string, string>, directory: Dict<string, string>): (r: seq<string>)
    ensures |r| <= |ids|
    ensures forall i :: 0 <= i < |r| ==> r[i] != ""
  {
    if |ids| == 0 then [] else Resolved(ids[0], userMap, directory) + ResolveLogins(ids[1..], userMap, directory)
  }

  /** Each resolved login comes from some identifier, and no login at all means no
      identifier resolves. */
  lemma {:induction false} ResolveLoginsSpec(ids: seq<string>, userMap: map<string, string>, directory: Dict<string, string>)
    ensures forall i :: 0 <= i < |ResolveLogins(ids, userMap, directory)| ==>
              exists j :: 0 <= j < |ids| && ResolveOne(ids[j], userMap, directory) == Some(ResolveLogins(ids, userMap, directory)[i])
    ensures (forall j :: 0 <= j < |ids| ==> ResolveOne(ids[j], userMap, directory).None?)
              <==> ResolveLogins(ids, userMap, directory) == []
  {
    if |ids| > 0 {
      ResolveLoginsSpec(ids[1..], userMap, directory);
      var r := ResolveLogins(ids, userMap, directory);
      var rest := ResolveLogins(ids[1..], userMap, directory);
      var head := Resolved(ids[0], userMap, directory);
      assert r == head + rest;
      forall i | 0 <= i < |r|
        ensures exists j :: 0 <= j < |ids| && ResolveOne(ids[j], userMap, directory) == Some(r[i])
      {
        if i < |head| {
          assert ResolveOne(ids[0], userMap, directory) == Some(r[i]);
        } else {
          assert r[i] == rest[i - |head|];
          var j :| 0 <= j < |ids[1..]| && ResolveOne(ids[1..][j], userMap, directory) == Some(rest[i - |head|]);
          assert ids[1..][j] == ids[j + 1];
          assert ResolveOne(ids[j + 1], userMap, directory) == Some(r[i]);
        }
      }
      if r == [] {
        forall j | 0 <= j < |ids| ensures ResolveOne(ids[j], userMap, directory).None? {
          if j > 0 {
            assert ids[j] == ids[1..][j - 1];
          }
        }
      } else {
        var i := 0;
        var j :| 0 <= j < |ids| && ResolveOne(ids[j], userMap, directory) == Some(r[i]);
      }
    } else {
      assert ResolveLogins(ids, userMap, directory) == [];
    }
  }

  /** An identifier that resolves contributes its login. */
  lemma {:induction false} ResolvedLoginKept(ids: seq<string>, userMap: map<string, string>, directory: Dict<string, string>, j: int)
    requires 0 <= j < |ids| && ResolveOne(ids[j], userMap, directory).Some?
    ensures ResolveOne(ids[j], userMap, directory).value in ResolveLogins(ids, userMap, directory)
  {
    if j > 0 {
      assert ids[j] == ids[1..][j - 1];
      ResolvedLoginKept(ids[1..], userMap, directory, j - 1);
    }
  }

  /** Identifiers resolve independently: the logins of two identifier lists one after the
      other are the first list's logins followed by the second's. */
  lemma {:induction false} ResolveLoginsConcat(ids: seq<string>, more: seq<string>, userMap: map<string, string>, directory: Dict<string, string>)
    ensures ResolveLogins(ids + more, userMap, directory) == ResolveLogins(ids, userMap, directory) + ResolveLogins(more, userMap, directory)
  {
    if |ids| == 0 {
      assert ids + more == more;
    } else {
      assert (ids + more)[0] == ids[0];
      assert (ids + more)[1..] == ids[1..] + more;
      ResolveLoginsConcat(ids[1..], more, userMap, directory);
    }
  }

  /** One identifier yields its login when it resolves and nothing otherwise. */
  lemma ResolveLoginsSingle(id: string, userMap: map<string, string>, directory: Dict<string, string>)
    ensures ResolveLogins([id], userMap, directory) ==
              if ResolveOne(id, userMap, directory).Some? then [ResolveOne(id, userMap, directory).value] else []
  {
    assert [id][1..] == [];
  }

  /** The assignment made for the identifiers, if any: their resolved logins, or else the
      default identity's login when the directory has it. Identifiers are tried only when
      the user map is non-empty and the directory was fetched non-empty (`haveUsers`). */
  function AssignmentIn(ids: seq<string>, userMap: map<string, string>, haveUsers: bool,
                        directory: Dict<string, string>, defaultEmail: string): (r: Option<seq<string>>)
    ensures r.Some? ==> r.value != []
    ensures !haveUsers ==> r.None?
  {
    var logins := if userMap != map[] && haveUsers then ResolveLogins(ids, userMap, directory) else [];
    if logins != [] then Some(logins)
    else if haveUsers then
      match Get(directory, Lower(defaultEmail))
      case Some(login) => if login != "" then Some([login]) else None
      case None => None
    else None
  }

  /** The assignment for a fetched user list. */
  function Assignment(ids: seq<string>, userMap: map<string, string>, users: seq<User>, defaultEmail: string): Option<seq<string>> {
    AssignmentIn(ids, userMap, users != [], EmailToLogin(users), defaultEmail)
  }

  /** With both tables present and some identifier resolving, the assignment is exactly
      the resolved logins. */
  lemma ResolvedAssignment(ids: seq<string>, userMap: map<string, string>, directory: Dict<string, string>, defaultEmail: string, j: int)
    requires userMap != map[]
    requires 0 <= j < |ids| && ResolveOne(ids[j], userMap, directory).Some?
    ensures AssignmentIn(ids, userMap, true, directory, defaultEmail) == Some(ResolveLogins(ids, userMap, directory))
  {
    ResolvedLoginKept(ids, userMap, directory, j);
  }

  /** When no identifier resolves, the only possible assignment is the default identity's
      login, and it is made exactly when the directory has a login for that email. */
  lemma DefaultAssignment(ids: seq<string>, userMap: map<string, string>, haveUsers: bool,
                          directory: Dict<string, string>, defaultEmail: string)
    requires forall j :: 0 <= j < |ids| ==> ResolveOne(ids[j], userMap, directory).None?
    ensures AssignmentIn(ids, userMap, haveUsers, directory, defaultEmail).Some? <==>
              haveUsers && Get(directory, Lower(defaultEmail)).Some? && Get(directory, Lower(defaultEmail)).value != ""
    ensures AssignmentIn(ids, userMap, haveUsers, directory, defaultEmail).Some? ==>
              AssignmentIn(ids, userMap, haveUsers, directory, defaultEmail).value == [Get(directory, Lower(defaultEmail)).value]
  {
    ResolveLoginsSpec(ids, userMap, directory);
  }

  // ---------------------------------------------------------------- the update plan

  /** One request `import_trello_card` sends after reading a row. */
  datatype Step =
    | Create(request: CreateRequest)
    | Assign(logins: seq<string>)
    | SetSprint(sprint: string)
    | SetLabels(labels: seq<string>)
    | SetPriority(priority: string)
    | SetStoryPoints(points: nat)
    | AddComment(text: string)

  /** Where each kind of step sits in the plan. */
  function StepRank(s: Step): nat {
    match s
    case Create(_) => 0
    case Assign(_) => 1
    case SetSprint(_) => 2
    case SetLabels(_) => 3
    case SetPriority(_) => 4
    case SetStoryPoints(_) => 5
    case AddComment(_) => 6
  }

  predicate AllRank(steps: seq<Step>, k: nat) {
    forall i :: 0 <= i < |steps| ==> StepRank(steps[i]) == k
  }

  /** The steps are in rank order and none ranks below `k`. */
  predicate OrderedFrom(steps: seq<Step>, k: nat) {
    (forall i :: 0 <= i < |steps| ==> k <= StepRank(steps[i]))
    && forall i, j :: 0 <= i < j < |steps| ==> StepRank(steps[i]) <= StepRank(steps[j])
  }

  lemma PrependRank(a: seq<Step>, k: nat, rest: seq<Step>, m: nat)
    requires AllRank(a, k) && OrderedFrom(rest, m) && k <= m
    ensures OrderedFrom(a + rest, k)
  {
    var s := a + rest;
    forall i, j | 0 <= i < j < |s| ensures StepRank(s[i]) <= StepRank(s[j]) {
      if j >= |a| {
        assert s[j] == rest[j - |a|];
        if i >= |a| {
          assert s[i] == rest[i - |a|];
        }
      }
    }
  }

  /** The labels: the trimmed non-empty comma pieces of Labels. */
  function Labels(row: Row): (r: seq<string>)
    ensures forall i :: 0 <= i < |r| ==> r[i] != "" && Strip(r[i]) == r[i]
  {
    if Field(row, LabelsColumn) != "" then StrippedNonBlank(Split(Field(row, LabelsColumn), ",")) else []
  }

  /** The story points: the trimmed column when it parses as an integer of at least zero. */
  function StoryPoints(row: Row): (r: Option<nat>)
    ensures r.Some? <==> ParseInt(Strip(Field(row, StoryPointsColumn))).Some?
                         && ParseInt(Strip(Field(row, StoryPointsColumn))).value >= 0
    ensures r.Some? ==> r.value as int == ParseInt(Strip(Field(row, StoryPointsColumn))).value
  {
    var text := Strip(Field(row, StoryPointsColumn));
    if text != "" then
      match ParseInt(text)
      case Some(n) => if n >= 0 then Some(n as nat) else None
      case None => None
    else None
  }

  /** The comments: each trimmed non-blank piece of Comments, in order. */
  function Comments(row: Row): (r: seq<string>)
    ensures forall i :: 0 <= i < |r| ==> r[i] != "" && Strip(r[i]) == r[i]
  {
    if Field(row, CommentsColumn) != "" then StrippedNonBlank(Split(Field(row, CommentsColumn), CommentSeparator)) else []
  }

  /** A name that survives being joined with ", " and read back by comma splitting:
      non-empty, trimmed, without a comma. */
  predicate CleanName(s: string) {
    s != "" && Strip(s) == s && ',' !in s
  }

  /** Clean names joined by ", " split back into themselves. */
  lemma CleanNamesReadBack(names: seq<string>, text: string)
    requires |names| > 0 && forall i :: 0 <= i < |names| ==> CleanName(names[i])
    requires text == Join(names, ", ")
    ensures text != "" && StrippedNonBlank(Split(text, ",")) == names
  {
    assert |text| >= |names[0]| > 0;
    CommaJoinReadBack(names);
  }

  /** The labels of a row whose Labels cell is the non-empty `text`. */
  lemma LabelsOf(row: Row, text: string)
    requires Field(row, LabelsColumn) == text && text != ""
    ensures Labels(row) == StrippedNonBlank(Split(text, ","))
  {
  }

  /** An empty Labels cell gives no labels. */
  lemma NoLabels(row: Row)
    requires Field(row, LabelsColumn) == ""
    ensures Labels(row) == []
  {
  }

  /** Labels written as `", ".join(names)` come back as the same names, provided each
      name is clean. */
  lemma LabelsReadBack(row: Row, names: seq<string>)
    requires |names| > 0 && forall i :: 0 <= i < |names| ==> CleanName(names[i])
    requires Field(row, LabelsColumn) == Join(names, ", ")
    ensures Labels(row) == names
  {
    var text := Join(names, ", ");
    CleanNamesReadBack(names, text);
    LabelsOf(row, text);
  }

  /** The identifiers of a row whose Member Usernames cell is the non-empty `text` with
      at least one comma piece. */
  lemma IdentifiersOf(row: Row, text: string)
    requires Field(row, MemberUsernamesColumn) == text && text != "" && CommaList(text) != []
    ensures Identifiers(row) == CommaList(text)
  {
  }

  /** A Labels cell holding `", ".join(names)` (empty for no names) reads back as the
      names, provided each is clean. */
  lemma JoinedLabelsReadBack(row: Row, names: seq<string>)
    requires forall i :: 0 <= i < |names| ==> CleanName(names[i])
    requires Field(row, LabelsColumn) == if names == [] then "" else Join(names, ", ")
    ensures Labels(row) == names
  {
    if names == [] {
      NoLabels(row);
    } else {
      var text := Join(names, ", ");
      CleanNamesReadBack(names, text);
      LabelsOf(row, text);
    }
  }

  /** Member usernames written as `", ".join(names)` become the lowercased names, and
      Members is not consulted. */
  lemma IdentifiersReadBack(row: Row, names: seq<string>)
    requires |names| > 0 && forall i :: 0 <= i < |names| ==> CleanName(names[i])
    requires Field(row, MemberUsernamesColumn) == Join(names, ", ")
    ensures Identifiers(row) == LowerAll(names)
  {
    var text := Join(names, ", ");
    CleanNamesReadBack(names, text);
    assert CommaList(text) == LowerAll(names);
    IdentifiersOf(row, text);
  }

  /** A comment that survives being joined with the separator and read back: non-empty,
      trimmed, and not running into the separator. */
  predicate CleanComment(p: string) {
    p != "" && Strip(p) == p && SplitsCleanly(p, CommentSeparator)
  }

  /** Clean comments joined by the separator split back into themselves. */
  lemma CleanCommentsReadBack(parts: seq<string>, text: string)
    requires |parts| > 0 && forall i :: 0 <= i < |parts| ==> CleanComment(parts[i])
    requires text == Join(parts, CommentSeparator)
    ensures text != "" && StrippedNonBlank(Split(text, CommentSeparator)) == parts
  {
    assert |text| >= |parts[0]| > 0;
    SplitJoin(parts, CommentSeparator);
    StrippedNonBlankTrimmed(parts);
  }

  /** Comments written as `"\n---\n".join(parts)` come back as the same parts, provided
      each part is clean. */
  lemma CommentsReadBack(row: Row, parts: seq<string>)
    requires |parts| > 0 && forall i :: 0 <= i < |parts| ==> CleanComment(parts[i])
    requires Field(row, CommentsColumn) == Join(parts, CommentSeparator)
    ensures Comments(row) == parts
  {
    var text := Join(parts, CommentSeparator);
    CleanCommentsReadBack(parts, text);
    CommentsOf(row, text);
  }

  /** An empty Comments cell gives no comments. */
  lemma NoComments(row: Row)
    requires Field(row, CommentsColumn) == ""
    ensures Comments(row) == []
  {
  }

  /** A Comments cell holding the parts joined by the separator (empty for no parts)
      reads back as the parts, provided each is clean. */
  lemma JoinedCommentsReadBack(row: Row, parts: seq<string>)
    requires forall i :: 0 <= i < |parts| ==> CleanComment(parts[i])
    requires Field(row, CommentsColumn) == if parts == [] then "" else Join(parts, CommentSeparator)
    ensures Comments(row) == parts
  {
    if parts == [] {
      NoComments(row);
    } else {
      var text := Join(parts, CommentSeparator);
      CleanCommentsReadBack(parts, text);
      CommentsOf(row, text);
    }
  }

  /** The comments of a row whose Comments cell is the non-empty `text`. */
  lemma CommentsOf(row: Row, text: string)
    requires Field(row, CommentsColumn) == text && text != ""
    ensures Comments(row) == StrippedNonBlank(Split(text, CommentSeparator))
  {
  }

  /** Pieces that are already trimmed and non-blank pass through unchanged. */
  lemma {:induction false} StrippedNonBlankTrimmed(parts: seq<string>)
    requires forall i :: 0 <= i < |parts| ==> parts[i] != "" && Strip(parts[i]) == parts[i]
    ensures StrippedNonBlank(parts) == parts
  {
    if |parts| > 0 {
      AllTail((p: string) => p != "" && Strip(p) == p, parts);
      StrippedNonBlankTrimmed(parts[1..]);
      HeadTail(parts);
    }
  }

  /** A Story Points cell holding `str(n)` yields n exactly when n is not negative. */
  lemma StoryPointsReadBack(row: Row, n: int)
    requires Field(row, StoryPointsColumn) == IntToString(n)
    ensures StoryPoints(row) == if n >= 0 then Some(n as nat) else None
  {
    var text := IntToString(n);
    IntToStringTrimmed(n);
    ParseIntToString(n);
    StoryPointsOf(row, text, n);
  }

  /** The story points of a cell whose trimmed text `int()` reads as `n`. */
  lemma StoryPointsOf(row: Row, text: string, n: int)
    requires Strip(Field(row, StoryPointsColumn)) == text && ParseInt(text) == Some(n)
    ensures StoryPoints(row) == if n >= 0 then Some(n as nat) else None
  {
  }

  /** The story points of a cell whose trimmed text `int()` refuses. */
  lemma StoryPointsRefused(row: Row, text: string)
    requires Strip(Field(row, StoryPointsColumn)) == text && ParseInt(text) == None
    ensures StoryPoints(row) == None
  {
  }

  /** A Story Points cell whose trimmed text starts with a letter, such as "abc", yields
      no update. */
  lemma WordPointsSkipped(row: Row)
    requires Strip(Field(row, StoryPointsColumn)) != ""
    requires 'a' <= Strip(Field(row, StoryPointsColumn))[0] <= 'z'
    ensures StoryPoints(row) == None
  {
    var text := Strip(Field(row, StoryPointsColumn));
    LetterNotSign(text[0]);
    assert ParseInt(text) == None;
    StoryPointsRefused(row, text);
  }

  lemma LetterNotSign(c: char)
    requires 'a' <= c <= 'z'
    ensures !IsDigit(c) && c !in "_+-"
  {
    assert "_+-" == ['_', '+', '-'];
  }

  const DueLead := "**Due date from Trello:** "

  /** The due-date comment, when Due Date is non-empty. */
  function DueComment(row: Row): (r: Option<string>)
    ensures r.Some? <==> Field(row, DueDateColumn) != ""
    ensures r.Some? ==> r.value == DueLead + Field(row, DueDateColumn)
                                  + (if Field(row, DueCompleteColumn) == "Yes" then " (Completed)" else "")
  {
    var due := Field(row, DueDateColumn);
    if due != "" then
      Some(DueLead + due + (if Field(row, DueCompleteColumn) == "Yes" then " (Completed)" else ""))
    else None
  }

  /** The import-time context: the target project, the state map, the identity tables,
      the sprint to add to and the default identity. */
  datatype Context = Context(
    projectId: string,
    stateMap: StateMap,
    userMap: map<string, string>,
    users: seq<User>,
    sprint: Option<string>,
    defaultEmail: string)

  /** What a row and the context decide, one field per kind of step. */
  datatype Decisions = Decisions(
    create: CreateRequest,
    assignment: Option<seq<string>>,
    sprint: Option<string>,
    labels: seq<string>,
    priority: string,
    points: Option<nat>,
    comments: seq<string>,
    due: Option<string>)

  function Decide(row: Row, ctx: Context): Decisions {
    Decisions(
      CreatePayload(ctx.projectId, Summary(row), ComposeDescription(row), InitialFields(row, ctx.stateMap)),
      Assignment(Identifiers(row), ctx.userMap, ctx.users, ctx.defaultEmail),
      ctx.sprint,
      Labels(row),
      Strip(Field(row, PriorityColumn)),
      StoryPoints(row),
      Comments(row),
      DueComment(row))
  }

  function OptionSteps<T>(o: Option<T>, f: T -> Step): (r: seq<Step>)
    ensures |r| <= 1 && (r != [] <==> o.Some?)
    ensures o.Some? ==> r == [f(o.value)]
  {
    match o
    case Some(v) => [f(v)]
    case None => []
  }

  function AssignSteps(assignment: Option<seq<string>>): (r: seq<Step>)
    ensures AllRank(r, 1)
    ensures r != [] <==> assignment.Some?
    ensures r != [] ==> r == [Assign(assignment.value)]
  {
    OptionSteps(assignment, (l: seq<string>) => Assign(l))
  }

  /** `if sprint_name:` */
  function SprintSteps(sprint: Option<string>): (r: seq<Step>)
    ensures AllRank(r, 2)
    ensures r != [] <==> sprint.Some? && sprint.value != ""
    ensures r != [] ==> r == [SetSprint(sprint.value)]
  {
    match sprint
    case Some(s) => if s != "" then [SetSprint(s)] else []
    case None => []
  }

  /** One label update, made only when labels remain. */
  function LabelSteps(labels: seq<string>): (r: seq<Step>)
    ensures AllRank(r, 3)
    ensures r != [] <==> labels != []
    ensures r != [] ==> r == [SetLabels(labels)]
  {
    if labels != [] then [SetLabels(labels)] else []
  }

  /** The (trimmed) priority is sent when anything is left of it. */
  function PrioritySteps(priority: string): (r: seq<Step>)
    ensures AllRank(r, 4)
    ensures r != [] <==> priority != ""
    ensures r != [] ==> r == [SetPriority(priority)]
  {
    if priority != "" then [SetPriority(priority)] else []
  }

  function PointSteps(points: Option<nat>): (r: seq<Step>)
    ensures AllRank(r, 5)
    ensures r != [] <==> points.Some?
    ensures r != [] ==> r == [SetStoryPoints(points.value)]
  {
    OptionSteps(points, (n: nat) => SetStoryPoints(n))
  }

  function CommentSteps(comments: seq<string>): (r: seq<Step>)
    ensures AllRank(r, 6)
    ensures |r| == |comments| && forall i :: 0 <= i < |r| ==> r[i] == AddComment(comments[i])
  {
    if |comments| == 0 then [] else [AddComment(comments[0])] + CommentSteps(comments[1..])
  }

  function DueSteps(due: Option<string>): (r: seq<Step>)
    ensures AllRank(r, 6)
    ensures r != [] <==> due.Some?
    ensures r != [] ==> r == [AddComment(due.value)]
  {
    OptionSteps(due, (c: string) => AddComment(c))
  }

  /** The requests for a set of decisions, in order: Create, then Assign, Sprint, Labels,
      Priority, Story Points, each comment and the due-date comment. */
  function Plan(d: Decisions): (r: seq<Step>)
    ensures OrderedFrom(r, 0)
    ensures |r| >= 1 && r[0] == Create(d.create)
  {
    var tail6 := CommentSteps(d.comments) + DueSteps(d.due);
    var tail5 := PointSteps(d.points) + tail6;
    var tail4 := PrioritySteps(d.priority) + tail5;
    var tail3 := LabelSteps(d.labels) + tail4;
    var tail2 := SprintSteps(d.sprint) + tail3;
    var tail1 := AssignSteps(d.assignment) + tail2;
    PrependRank(CommentSteps(d.comments), 6, DueSteps(d.due), 6);
    PrependRank(PointSteps(d.points), 5, tail6, 6);
    PrependRank(PrioritySteps(d.priority), 4, tail5, 5);
    PrependRank(LabelSteps(d.labels), 3, tail4, 4);
    PrependRank(SprintSteps(d.sprint), 2, tail3, 3);
    PrependRank(AssignSteps(d.assignment), 1, tail2, 2);
    PrependRank([Create(d.create)], 0, tail1, 1);
    [Create(d.create)] + tail1
  }

  /** `import_trello_card` as the requests it sends for one row. */
  function ImportCard(row: Row, ctx: Context): (r: seq<Step>)
    ensures OrderedFrom(r, 0)
    ensures |r| >= 1 && r[0] == Create(CreatePayload(ctx.projectId, Summary(row), ComposeDescription(row), InitialFields(row, ctx.stateMap)))
  {
    Plan(Decide(row, ctx))
  }

  function RankIs(k: nat): Step -> bool {
    (s: Step) => StepRank(s) == k
  }

  /** The steps of one kind. */
  function StepsOfRank(steps: seq<Step>, k: nat): (r: seq<Step>)
    ensures AllRank(r, k)
  {
    Filter(RankIs(k), steps)
  }

  lemma {:induction false} StepsOfUniformRank(steps: seq<Step>, m: nat, k: nat)
    requires AllRank(steps, m)
    ensures StepsOfRank(steps, k) == if k == m then steps else []
  {
    if |steps| > 0 {
      assert AllRank(steps[1..], m) by {
        assert forall i :: 1 <= i < |steps| ==> steps[i] == steps[1..][i - 1];
      }
      StepsOfUniformRank(steps[1..], m, k);
      assert steps == [steps[0]] + steps[1..];
    }
  }

  lemma RankSections(c: seq<Step>, a: seq<Step>, s: seq<Step>, l: seq<Step>,
                      p: seq<Step>, n: seq<Step>, m: seq<Step>, e: seq<Step>, k: nat)
    requires AllRank(c, 0) && AllRank(a, 1) && AllRank(s, 2) && AllRank(l, 3)
    requires AllRank(p, 4) && AllRank(n, 5) && AllRank(m, 6) && AllRank(e, 6)
    ensures StepsOfRank(c + (a + (s + (l + (p + (n + (m + e)))))), k) ==
      match k
      case 0 => c
      case 1 => a
      case 2 => s
      case 3 => l
      case 4 => p
      case 5 => n
      case 6 => m + e
      case _ => []
  {
    FilterEight(RankIs(k), c, a, s, l, p, n, m, e);
    StepsOfUniformRank(c, 0, k);
    StepsOfUniformRank(a, 1, k);
    StepsOfUniformRank(s, 2, k);
    StepsOfUniformRank(l, 3, k);
    StepsOfUniformRank(p, 4, k);
    StepsOfUniformRank(n, 5, k);
    StepsOfUniformRank(m, 6, k);
    StepsOfUniformRank(e, 6, k);
  }

  /** Each kind of step in the plan comes from its own decision alone. */
  lemma {:induction false} PlanSections(d: Decisions, k: nat)
    ensures StepsOfRank(Plan(d), k) ==
      match k
      case 0 => [Create(d.create)]
      case 1 => AssignSteps(d.assignment)
      case 2 => SprintSteps(d.sprint)
      case 3 => LabelSteps(d.labels)
      case 4 => PrioritySteps(d.priority)
      case 5 => PointSteps(d.points)
      case 6 => CommentSteps(d.comments) + DueSteps(d.due)
      case _ => []
  {
    var c := [Create(d.create)];
    var a := AssignSteps(d.assignment);
    var s := SprintSteps(d.sprint);
    var l := LabelSteps(d.labels);
    var p := PrioritySteps(d.priority);
    var n := PointSteps(d.points);
    var m := CommentSteps(d.comments);
    var e := DueSteps(d.due);
    assert Plan(d) == c + (a + (s + (l + (p + (n + (m + e))))));
    RankSections(c, a, s, l, p, n, m, e, k);
  }

  // ---------------------------------------------------------------- agile boards

  /** A field value of a board column; a missing name reads as "". */
  datatype FieldValue = FieldValue(name: string)

  /** A column of an agile board: its presentation name and its field values. */
  datatype AgileColumn = AgileColumn(presentation: string, fieldValues: seq<FieldValue>)

  function NamedValue(v: FieldValue): Option<string> {
    if v.name != "" then Some(v.name) else None
  }

  /** The state a column stands for: its first field value with a non-empty name. */
  function ColumnState(c: AgileColumn): Option<string> {
    FirstSome(NamedValue, c.fieldValues)
  }

  lemma ColumnStateSpec(c: AgileColumn)
    ensures ColumnState(c).None? <==> forall i :: 0 <= i < |c.fieldValues| ==> c.fieldValues[i].name == ""
    ensures ColumnState(c).Some? ==>
              exists i :: 0 <= i < |c.fieldValues| && c.fieldValues[i].name == ColumnState(c).value != ""
                          && forall j :: 0 <= j < i ==> c.fieldValues[j].name == ""
  {
  }

  /** The assignments the loop of `get_board_states` makes, in column order, for a given
      way of reading a column's state. */
  function EntriesBy(state: AgileColumn -> Option<string>, columns: seq<AgileColumn>): (r: seq<(string, string)>)
    ensures |r| <= |columns|
  {
    if |columns| == 0 then []
    else
      var last := columns[|columns| - 1];
      EntriesBy(state, columns[..|columns| - 1])
      + match state(last) case Some(s) => [(last.presentation, s)] case None => []
  }

  function StateEntries(columns: seq<AgileColumn>): seq<(string, string)> {
    EntriesBy(ColumnState, columns)
  }

  /** The dict the loop of `get_board_states` builds. */
  function BoardStates(columns: seq<AgileColumn>): Dict<string, string> {
    FromPairs(StateEntries(columns))
  }

  /** One column's contribution: its state under its presentation, when it has one. */
  function AddState(states: Dict<string, string>, column: AgileColumn): Dict<string, string> {
    match ColumnState(column)
    case Some(s) => Put(states, column.presentation, s)
    case None => states
  }

  lemma BoardStatesStep(columns: seq<AgileColumn>, i: int)
    requires 0 <= i < |columns|
    ensures BoardStates(columns[..i + 1]) == AddState(BoardStates(columns[..i]), columns[i])
  {
    var prefix := columns[..i + 1];
    assert prefix[..i] == columns[..i] && prefix[i] == columns[i];
    var before := StateEntries(columns[..i]);
    match ColumnState(columns[i]) {
      case Some(s) =>
        assert StateEntries(prefix) == before + [(columns[i].presentation, s)];
        SnocInit(before, (columns[i].presentation, s));
      case None =>
        assert StateEntries(prefix) == before;
    }
  }

  /** `get_board_states`: column presentation to state name, over the fetched columns. */
  method GetBoardStates(columns: seq<AgileColumn>) returns (states: Dict<string, string>)
    ensures states == BoardStates(columns)
  {
    states := [];
    var i := 0;
    while i < |columns|
      invariant 0 <= i <= |columns|
      invariant states == BoardStates(columns[..i])
    {
      BoardStatesStep(columns, i);
      states := AddState(states, columns[i]);
      i := i + 1;
    }
    assert columns[..i] == columns;
  }

  /** A column presentation is a key exactly when some column of that presentation has a
      named field value. */
  lemma BoardStateKeys(columns: seq<AgileColumn>, k: string)
    ensures Get(BoardStates(columns), k).Some?
        <==> exists i :: 0 <= i < |columns| && columns[i].presentation == k && ColumnState(columns[i]).Some?
  {
    EntryKeys(ColumnState, columns, k);
  }

  /** An entry has key `k` exactly when some column of that presentation has a state. */
  lemma EntryKeys(state: AgileColumn -> Option<string>, columns: seq<AgileColumn>, k: string)
    ensures (exists j :: 0 <= j < |EntriesBy(state, columns)| && EntriesBy(state, columns)[j].0 == k)
        <==> exists i :: 0 <= i < |columns| && columns[i].presentation == k && state(columns[i]).Some?
  {
    var e := EntriesBy(state, columns);
    if j :| 0 <= j < |e| && e[j].0 == k {
      var i := EntryColumn(state, columns, k, j);
    }
    if i :| 0 <= i < |columns| && columns[i].presentation == k && state(columns[i]).Some? {
      var j := ColumnEntry(state, columns, k, i);
    }
  }

  /** The entries of all columns extend those of all but the last. */
  lemma EntriesSnoc(state: AgileColumn -> Option<string>, columns: seq<AgileColumn>)
    requires |columns| > 0
    ensures var e := EntriesBy(state, columns);
      var ei := EntriesBy(state, columns[..|columns| - 1]);
      && (forall j :: 0 <= j < |ei| ==> j < |e| && e[j] == ei[j])
      && (state(columns[|columns| - 1]).None? ==> |e| == |ei|)
      && (state(columns[|columns| - 1]).Some? ==>
            |e| == |ei| + 1 && e[|ei|] == (columns[|columns| - 1].presentation, state(columns[|columns| - 1]).value))
  {
  }

  /** The column an entry comes from. */
  lemma {:induction false} EntryColumn(state: AgileColumn -> Option<string>, columns: seq<AgileColumn>, k: string, j: int)
    returns (i: int)
    requires 0 <= j < |EntriesBy(state, columns)| && EntriesBy(state, columns)[j].0 == k
    ensures 0 <= i < |columns| && columns[i].presentation == k && state(columns[i]).Some?
  {
    var n := |columns| - 1;
    var init := columns[..n];
    EntriesSnoc(state, columns);
    if j < |EntriesBy(state, init)| {
      i := EntryColumn(state, init, k, j);
      assert init[i] == columns[i];
    } else {
      i := n;
    }
  }

  /** The entry a column with a state contributes. */
  lemma {:induction false} ColumnEntry(state: AgileColumn -> Option<string>, columns: seq<AgileColumn>, k: string, i: int)
    returns (j: int)
    requires 0 <= i < |columns| && columns[i].presentation == k && state(columns[i]).Some?
    ensures 0 <= j < |EntriesBy(state, columns)| && EntriesBy(state, columns)[j].0 == k
  {
    var n := |columns| - 1;
    var init := columns[..n];
    EntriesSnoc(state, columns);
    if i < n {
      assert init[i] == columns[i];
      j := ColumnEntry(state, init, k, i);
    } else {
      j := |EntriesBy(state, init)|;
    }
  }

  /** Among columns of the same presentation, the last one with a named field value
      decides the state. */
  lemma BoardStateLastWins(columns: seq<AgileColumn>, k: string, i: int)
    requires 0 <= i < |columns| && columns[i].presentation == k && ColumnState(columns[i]).Some?
    requires forall j :: i < j < |columns| && columns[j].presentation == k ==> ColumnState(columns[j]).None?
    ensures Get(BoardStates(columns), k) == ColumnState(columns[i])
  {
    EntriesLastWins(ColumnState, columns, k, i);
  }

  lemma {:induction false} EntriesLastWins(state: AgileColumn -> Option<string>, columns: seq<AgileColumn>, k: string, i: int)
    requires 0 <= i < |columns| && columns[i].presentation == k && state(columns[i]).Some?
    requires forall j :: i < j < |columns| && columns[j].presentation == k ==> state(columns[j]).None?
    ensures LastValue(EntriesBy(state, columns), k) == state(columns[i])
  {
    var n := |columns| - 1;
    var init := columns[..n];
    var last := columns[n];
    var ei := EntriesBy(state, init);
    if i == n {
      assert EntriesBy(state, columns) == ei + [(k, state(last).value)];
      LastValueSnoc(ei, (k, state(last).value), k);
    } else {
      assert forall j :: 0 <= j < n ==> init[j] == columns[j];
      EntriesLastWins(state, init, k, i);
      match state(last) {
        case Some(s) =>
          assert last.presentation != k;
          assert EntriesBy(state, columns) == ei + [(last.presentation, s)];
          LastValueSnoc(ei, (last.presentation, s), k);
        case None =>
          assert EntriesBy(state, columns) == ei;
      }
    }
  }

  /** An agile board and the project ids it lists; a project without an id reads as None. */
  datatype AgileBoard = AgileBoard(id: string, name: string, projects: seq<Option<string>>)

  function ListsProject(p: string): AgileBoard -> bool {
    (b: AgileBoard) => Some(p) in b.projects
  }

  /** `get_agile_boards`: with a non-empty project id, the boards listing that project. */
  function AgileBoardsFor(boards: seq<AgileBoard>, projectId: Option<string>): (r: seq<AgileBoard>)
    ensures projectId.None? || projectId == Some("") ==> r == boards
    ensures projectId.Some? && projectId.value != "" ==>
              (forall i :: 0 <= i < |r| ==> r[i] in boards && Some(projectId.value) in r[i].projects)
              && (forall i :: 0 <= i < |boards| && Some(projectId.value) in boards[i].projects ==> boards[i] in r)
  {
    match projectId
    case Some(p) => if p != "" then Filter(ListsProject(p), boards) else boards
    case None => boards
  }

  /** The filter distributes over concatenation, so it keeps board order. */
  lemma AgileBoardsConcat(a: seq<AgileBoard>, b: seq<AgileBoard>, p: string)
    requires p != ""
    ensures AgileBoardsFor(a + b, Some(p)) == AgileBoardsFor(a, Some(p)) + AgileBoardsFor(b, Some(p))
  {
    FilterConcat(ListsProject(p), a, b);
  }

  /** One board is kept exactly when it lists the project. */
  lemma AgileBoardsSingle(board: AgileBoard, p: string)
    requires p != ""
    ensures AgileBoardsFor([board], Some(p)) == if Some(p) in board.projects then [board] else []
  {
    assert [board][1..] == [];
  }
}
