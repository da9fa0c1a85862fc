# Trello to YouTrack migration, modelled in Dafny

This project models the core of a script that moves Trello cards into YouTrack issues.
It has three parts:

- **The exporter** (`trello_exporter.py`) turns parts of a card into text: checklists,
  attachments, members and labels. It sorts attachment URLs into link buckets
  (GitHub PRs, Issues, Commits, Google Drive Files, Other Links). It reads story points
  and priority from the card's Power-Up plugin data.
- **The driver** (`migrate.py`) builds its tables from the user-mapping file, takes card
  ids out of share URLs and picks the open cards of a list. It builds one row per card
  and hands the rows to the importer through a CSV file.
- **The importer** (`youtrack_importer.py`) turns each row into an issue. It creates the
  issue with a description and an initial State, then sends updates in a fixed order:
  assignees, sprint, labels, priority, story points, comments and the due-date comment.
  It also reads a board's column-to-state table and filters agile boards by project.

The Dafny modules follow that structure:

- `Migrate`, `TrelloExporter` and `YouTrackImporter` model the three source files.
- `CardRow` holds the row type and the column names the three of them share.
- `Wrappers`, `Seqs`, `Text`, `Scalars` and `PyDict` model the Python built-ins the code
  relies on:
  - `Option`;
  - list comprehensions;
  - `str.strip`, `lower`, `split` and `join`, and the `in` test;
  - `int()` and `str()`;
  - the insertion-ordered `dict`.

Every request to Trello or YouTrack is a parameter:

- `Remote` gives the card details and comments;
- `Board` is the decoded board;
- `seq<User>` is the YouTrack user directory.

The importer does not send requests. It returns the list of requests it would send, as
`Step` values.

## Model

| member | source | states |
|---|---|---|
| TrelloExporter.FormatChecklists | trello_exporter.py:55-69 | The checklist text is empty exactly when there are no checklists. |
| TrelloExporter.FormatChecklistsLines | trello_exporter.py:55-69 | When no name contains a newline, splitting the text at newlines gives the rendered lines. Each checklist gives its `name:` header, then one `  ✓`/`☐ item` line per item, and one empty line separates consecutive checklists. |
| TrelloExporter.FormatAttachments | trello_exporter.py:71-81 | The attachment text is empty exactly when there are no attachments. |
| TrelloExporter.FormatAttachmentsLines | trello_exporter.py:71-81 | Splitting the attachment text at newlines gives back one `name: url` line per attachment, in order (names and URLs without newlines). |
| TrelloExporter.ClassifySpec | trello_exporter.py:98-118 | Each bucket is characterised both ways. Uploads go nowhere. A GitHub URL (host matched ignoring case) goes to PRs, Issues or Commits by the first of `/pull/`, `/issues/`, `/commit/` it contains, matched case-sensitively. Otherwise a drive/docs.google.com URL goes to Drive, and any other non-empty URL goes to Other Links. |
| TrelloExporter.GitHubOtherDropped | trello_exporter.py:108-114 | A GitHub link with none of the three paths lands in no bucket, not even Other Links. |
| TrelloExporter.PullRequestLink | trello_exporter.py:108-110 | A concrete pull-request attachment produces a GitHub PRs entry. |
| TrelloExporter.PowerupLinksSpec | trello_exporter.py:84-125 | The result holds an entry for a bucket exactly when that bucket received links. Each entry's value is that bucket's formatted links joined by newlines, in attachment order. Entries follow the fixed bucket order. |
| TrelloExporter.CollectBuckets | trello_exporter.py:98-118 | The single pass over the attachments leaves in every bucket's list exactly the formatted links of the attachments classified there, in order. |
| TrelloExporter.ExtractPowerupLinks | trello_exporter.py:84-125 | The loop-and-assemble method agrees with the declarative description of the buckets, which PowerupLinksSpec characterises. |
| TrelloExporter.UploadsIgnored | trello_exporter.py:101-104 | Removing uploaded attachments first changes nothing in the result. |
| TrelloExporter.FormatMembers | trello_exporter.py:127-130 | No members give ""; one member gives its full name, or its username when the full name key is absent. |
| TrelloExporter.FormatMembersConcat | trello_exporter.py:127-130 | The members of two non-empty lists one after the other read as the first list's cell, ", ", then the second's. |
| TrelloExporter.FormatLabels | trello_exporter.py:132-135 | No labels give ""; one label gives its name, or its colour when the name key is absent. |
| TrelloExporter.FormatLabelsConcat | trello_exporter.py:132-135 | The labels of two non-empty lists one after the other read as the first list's cell, ", ", then the second's. |
| TrelloExporter.SizeValue | trello_exporter.py:155 | `size or points or estimate`: the first truthy of `size` and `points`, otherwise `estimate` as it is, even when it is falsy. |
| TrelloExporter.EntryStoryPoints | trello_exporter.py:149-159 | A value comes only from a card-size entry whose value decodes and whose chosen field is present and converts with `int()`. |
| TrelloExporter.CardStoryPoints | trello_exporter.py:138-162 | The result is None exactly when no entry yields points. Otherwise it is the points of the first entry that yields some. |
| TrelloExporter.ZeroEstimateCounts | trello_exporter.py:155-157 | A card-size entry whose only field is `estimate: 0` yields 0 story points, not None. |
| TrelloExporter.UnconvertibleSizeSkipped | trello_exporter.py:153-159 | A size that `int()` refuses yields nothing for that entry. |
| TrelloExporter.PointsUsedWithoutSize | trello_exporter.py:155-157 | Without `size`, a non-zero `points` value is used. |
| TrelloExporter.BadEntrySkipped | trello_exporter.py:149-160 | A failing card-size entry does not stop the search: a later good entry supplies the points. |
| TrelloExporter.EntryPriority | trello_exporter.py:175-185 | A priority comes only from a priority-plugin entry whose truthy `priority` field it is, converted with `str`. |
| TrelloExporter.CardPriority | trello_exporter.py:164-188 | The result is None exactly when no entry yields a priority. Otherwise it is the first entry's. |
| TrelloExporter.MapPriority | trello_exporter.py:191-199 | "1" to "5" map to Highest, Critical, High, Medium and Low; anything else maps to Medium. |
| TrelloExporter.RowPriority | migrate.py:146-151 | The Priority cell is empty exactly when `get_card_priority` finds no priority or an empty one. Otherwise it is `map_trello_priority_to_youtrack` of that priority: one of the five YouTrack names. |
| Scalars.ParseIntToString | youtrack_importer.py:279 | `int()` reads back every integer that `str()` writes. |
| Scalars.ToInt | trello_exporter.py:157 | `int()` on decoded JSON: an integer stays itself, a boolean becomes 0 or 1, and null is refused. |
| Text.SplitJoin | youtrack_importer.py:287 | Splitting pieces joined by a separator gives the pieces back when no piece can form the separator with its neighbours. |
| Text.CommaJoinReadBack | youtrack_importer.py:267 | Names joined with ", " and read back by comma split, strip and drop-blank give the names back when they are non-empty, trimmed and comma-free. |
| PyDict.FromPairs | migrate.py:56 | A dict built from pairs keeps each key once, and for each key holds the value of the last pair with that key. |
| YouTrackImporter.ComposeDescription | youtrack_importer.py:190-211 | The description is empty exactly when all eight description columns are empty. Otherwise it is the non-empty sections joined by blank lines, in this order: the description text as is; the URL after the "Original Trello Card" lead; then Checklists, Attachments, GitHub PRs, GitHub Issues, GitHub Commits and Google Drive Files, each under its bold title. |
| YouTrackImporter.SectionPartsSpec | youtrack_importer.py:192-209 | Each part is non-empty, and there is at most one per section. There are no parts exactly when all listed columns are empty. |
| YouTrackImporter.SectionPartsSingle | youtrack_importer.py:192-209 | One section gives its rendered value when its column is non-empty, and nothing otherwise. |
| YouTrackImporter.SectionPartsConcat | youtrack_importer.py:192-209 | Sections contribute in order: the parts of two section lists one after the other are the first list's parts, then the second's. |
| YouTrackImporter.DescriptionParts | youtrack_importer.py:192-209 | The description's parts are the eight sections' own parts, in the source's order. |
| YouTrackImporter.DescriptionFrame | youtrack_importer.py:192-211 | The description depends on the eight description columns only. |
| YouTrackImporter.DescriptionWithLink | youtrack_importer.py:192-211 | With only Description and URL set, the description is the text, a blank line, then the "Original Trello Card" link line. |
| YouTrackImporter.InitialFields | youtrack_importer.py:214-223 | One State field is set exactly when the row's List value is a state-map key. Its value is that entry's state name. |
| YouTrackImporter.CreatePayload | youtrack_importer.py:69-74 | The description and custom fields are sent exactly when non-empty, and then unchanged. |
| YouTrackImporter.Summary | youtrack_importer.py:189 | The summary is the Card Name value, or "Untitled" when the key is absent. |
| YouTrackImporter.Identifiers | youtrack_importer.py:230-234 | The identifiers come from Member Usernames, and from Members only when Member Usernames yields none. |
| YouTrackImporter.IdentifiersReadBack | youtrack_importer.py:230-232 | Usernames joined with ", " come back as the same usernames, lowercased. |
| YouTrackImporter.EmailToLogin | youtrack_importer.py:227-228 | Each lowercased email maps to the login of the last user listed with both an email and a login. |
| YouTrackImporter.ResolveOne | youtrack_importer.py:236-241 | An identifier resolves exactly when the user map has it and the directory holds a non-empty login for its email. The result is that login. |
| YouTrackImporter.ResolveLoginsConcat | youtrack_importer.py:236-241 | Identifiers resolve independently and in order: two identifier lists one after the other give the first list's logins, then the second's. |
| YouTrackImporter.ResolveLoginsSingle | youtrack_importer.py:236-241 | One identifier gives its login when it resolves, and nothing otherwise. |
| YouTrackImporter.ResolveLoginsSpec | youtrack_importer.py:236-241 | Every resolved login comes from some identifier. There are none exactly when no identifier resolves. |
| YouTrackImporter.ResolvedLoginKept | youtrack_importer.py:236-241 | Every identifier that resolves contributes its login. |
| YouTrackImporter.AssignmentIn | youtrack_importer.py:225-261 | An assignment is never an empty list, and without a user directory there is none. |
| YouTrackImporter.ResolvedAssignment | youtrack_importer.py:226-253 | With a user map and at least one resolving identifier, the assignment is exactly the resolved logins. |
| YouTrackImporter.DefaultAssignment | youtrack_importer.py:252-261 | When no identifier resolves, the default identity is assigned exactly when the directory exists and holds a login for its email. |
| YouTrackImporter.StoryPoints | youtrack_importer.py:276-283 | Points are set exactly when the trimmed column parses as an integer of at least zero, and then to that integer. |
| YouTrackImporter.StoryPointsReadBack | youtrack_importer.py:276-281 | A number written with `str()` is read back as itself when it is non-negative. Otherwise it is skipped. |
| YouTrackImporter.StoryPointsRefused | youtrack_importer.py:278-283 | Text that `int()` refuses sets no points. |
| YouTrackImporter.WordPointsSkipped | youtrack_importer.py:276-283 | A value starting with a letter sets no points. |
| YouTrackImporter.CleanNamesReadBack | youtrack_importer.py:267 | Non-empty, trimmed, comma-free names joined with ", " are read back unchanged by the comma split. |
| YouTrackImporter.LabelsReadBack | youtrack_importer.py:266-269 | Labels written as clean names joined by ", " are read back as exactly those names. |
| YouTrackImporter.JoinedLabelsReadBack | youtrack_importer.py:266-269 | Labels round-trip also for no labels (an empty cell). |
| YouTrackImporter.CleanCommentsReadBack | youtrack_importer.py:287-290 | Trimmed comments that cannot form the separator, joined by it, are read back unchanged. |
| YouTrackImporter.CommentsReadBack | youtrack_importer.py:285-290 | A Comments cell holding clean comments joined by the separator yields exactly those comments. |
| YouTrackImporter.JoinedCommentsReadBack | youtrack_importer.py:285-290 | Comments round-trip also for no comments (an empty cell). |
| YouTrackImporter.DueComment | youtrack_importer.py:294-299 | There is a due comment exactly when Due Date is set. It is the due lead, the date, and " (Completed)" exactly when Due Complete is "Yes". |
| YouTrackImporter.AssignSteps | youtrack_importer.py:252-261 | There is one Assign step exactly when there is an assignment. |
| YouTrackImporter.SprintSteps | youtrack_importer.py:263-264 | There is one sprint step exactly when a non-empty sprint is named. |
| YouTrackImporter.LabelSteps | youtrack_importer.py:266-269 | There is one labels step exactly when there are labels. |
| YouTrackImporter.PrioritySteps | youtrack_importer.py:271-274 | There is one priority step exactly when the trimmed priority is non-empty. |
| YouTrackImporter.PointSteps | youtrack_importer.py:276-283 | There is one story-points step exactly when points were read. |
| YouTrackImporter.CommentSteps | youtrack_importer.py:285-292 | There is one comment step per comment, in order. |
| YouTrackImporter.DueSteps | youtrack_importer.py:294-299 | There is one comment step exactly when there is a due comment. |
| YouTrackImporter.Plan | youtrack_importer.py:243-299 | The plan starts with the create request, and the steps are ordered by kind. |
| YouTrackImporter.ImportCard | youtrack_importer.py:184-301 | Each row gives an ordered plan whose first step creates the issue with the row's summary, description and initial State. |
| YouTrackImporter.PlanSections | youtrack_importer.py:243-299 | The steps of each kind in the plan are exactly that kind's steps. Comments come before the due comment. |
| YouTrackImporter.ColumnStateSpec | youtrack_importer.py:49-53 | A column's state is its first field value with a non-empty name. There is none exactly when all names are empty. |
| YouTrackImporter.GetBoardStates | youtrack_importer.py:41-55 | The loop builds the same dict as one entry per column that has a state. |
| YouTrackImporter.BoardStateKeys | youtrack_importer.py:45-53 | A column name is a key exactly when some column of that name has a state. |
| YouTrackImporter.BoardStateLastWins | youtrack_importer.py:45-53 | For a repeated column name, the last such column with a state decides. |
| YouTrackImporter.AgileBoardsFor | youtrack_importer.py:61-64 | With a non-empty project id, the result is exactly the boards listing that project. Without one, it is all boards. |
| YouTrackImporter.AgileBoardsConcat | youtrack_importer.py:61-62 | Filtering two board lists joined is filtering each, in order. |
| YouTrackImporter.AgileBoardsSingle | youtrack_importer.py:62 | One board is kept exactly when it lists the project. |
| Migrate.ExtractCardId | migrate.py:32-39 | A share URL yields an id without "/". Anything else yields the stripped input. |
| Migrate.CardIdAfterMarker | migrate.py:34-38 | For a URL, the id is the text after the first "/c/", cut at its first "/". |
| Migrate.PlainIdStable | migrate.py:32-39 | A plain id is extracted to itself again. |
| Migrate.UrlIdTwice | migrate.py:33-38 | Extracting twice from a URL only strips the first result again. |
| Migrate.UrlIdNotIdempotent | migrate.py:33-38 | For "x/c/ a" a second extraction differs from the first. |
| Migrate.DisplayNameTable | migrate.py:17-30 | A missing or undecodable file leaves the display-name table empty. Otherwise the table is built from the records in file order. |
| Migrate.DisplayNamesProvenance | migrate.py:22-28 | Every entry comes from a named record. Its key is that record's username or full name, lowercased, and its value is the full name. |
| Migrate.DisplayNamesLowercase | migrate.py:25-28 | Every key is lowercase. |
| Migrate.DisplayNamesComplete | migrate.py:22-28 | Every named record can be found by its lowercased username and by its lowercased full name. |
| Migrate.UnnamedRecordIgnored | migrate.py:23-24 | A record without a full name adds nothing. |
| Migrate.AddLoginEmailSpec | migrate.py:199-207 | One record files its lowercased trimmed email under its lowercased username and trimmed full name, where non-empty. It changes nothing else. |
| Migrate.ImportUserMap | migrate.py:195-209 | A missing or unreadable file leaves the user map empty. Otherwise the map is built from the records in order. |
| Migrate.EmailMapProvenance | migrate.py:199-207 | Every user-map key is non-empty and comes from a record with an email. Its value is that record's lowercased email. |
| Migrate.EmailMapComplete | migrate.py:199-207 | Every record with an email can be found by its username and by its full name, where non-empty. |
| Migrate.EmailMapGrows | migrate.py:199-207 | Later records never remove a key. |
| Migrate.NoEmailIgnored | migrate.py:200-201 | A record without an email adds nothing to the user map. |
| Migrate.CommentAuthor | migrate.py:128-138 | The author is the mapped name of the lowercased username, else of the lowercased full name, else the raw full name, else "Unknown". |
| Migrate.AuthorIsKnown | migrate.py:128-138 | The author is never empty. It is "Unknown", the raw full name, or a full name from a named mapping record. |
| Migrate.FormatComments | migrate.py:140-144 | The Comments cell is empty exactly when no comment has text. |
| Migrate.CommentsSplitBack | migrate.py:140-144 | Splitting the cell at the separator gives back the kept comments, when none of them can form the separator. |
| Migrate.ListsMap | migrate.py:56 | The list table has one entry per id, and each id holds the name of its last listing. |
| Migrate.OpenCards | migrate.py:61 | Every card kept is an open card of the list, and every open card of the list is kept. |
| Migrate.OpenCardsConcat | migrate.py:61 | Cards are picked one by one: two card lists one after the other give the first list's picks, then the second's. |
| Migrate.OpenCardsSingle | migrate.py:61 | One card is kept exactly when it is in the list and not closed. |
| Migrate.FirstListNamed | migrate.py:59-60 | The id of the first list carrying the name. There is none exactly when no list carries it. |
| Migrate.FetchCardsFromList | migrate.py:54-62 | Cards in a list with no such name: none. Otherwise the open cards of the first list with that name. |
| Migrate.FetchedCardsInNamedList | migrate.py:54-62 | Every fetched card lies in a list of that name. Every open card of the first such list is fetched. |
| Migrate.ListsWithCardsSpec | migrate.py:69-75 | A name is a key exactly when some list of that name has open cards. Its cards are those of the last such list. |
| Migrate.GetAllListsWithCards | migrate.py:64-75 | The lists-with-cards table keeps each name once. |
| Migrate.ListingAgreesWithFetch | migrate.py:54-75 | For a list name that is unique on the board, the listing and the fetch agree. |
| Migrate.DuplicateNamesDisagree | migrate.py:54-75 | With two lists of one name, where only the second has open cards, fetching by name finds nothing although the listing shows cards under that name. |
| Migrate.BatchStateMap | migrate.py:211-216 | The state map has exactly the batch's label as its key, mapped to the chosen state. |
| Migrate.BaseRow | migrate.py:155-174 | A row starts with the eighteen base columns, in order. |
| Migrate.BaseColumnsDistinct | migrate.py:155-174 | The base column names are distinct. |
| Migrate.LinkColumnsSpec | migrate.py:176-179 | Every added link column comes from a non-Other bucket entry. With distinct buckets, the added columns are distinct. |
| Migrate.LinkColumnsGet | migrate.py:176-179 | Other Links is never added. Each other bucket with links is added with its joined links. |
| Migrate.RowLayout | migrate.py:155-179 | A row is its base cells followed by the link columns of the card's details. |
| Migrate.RowBaseCells | migrate.py:155-174 | Each base column of the row holds that card's cell. |
| Migrate.RowLinkCells | migrate.py:176-179 | A bucket column is present exactly when a non-Other bucket has links, and holds them joined by newlines. |
| Migrate.Reread | migrate.py:219-223 | A row read back has exactly the fieldnames as keys. Each cell is the written text with its line ends translated, because the file is read without `newline=''`. |
| Newlines.ReadNewlinesNoCr | migrate.py:221 | Text read back holds no "\r". |
| Newlines.ReadNewlinesPlain | migrate.py:221 | Text without "\r" reads back unchanged. |
| Newlines.ReadNewlinesChanges | migrate.py:221 | Text with a "\r" never reads back unchanged. |
| Newlines.ReadNewlinesPrefix | migrate.py:221 | A prefix without "\r" reads back as itself, in front of the rest's translation. |
| Newlines.CrLfLines | migrate.py:221 | Lines ended by "\r\n" read back ended by "\n". |
| Newlines.JoinNoCr | migrate.py:144 | Parts and a separator without "\r" join into text without "\r". |
| Newlines.CrLfSeparatorReadBack | migrate.py:221 | A comment holding "\r\n---\r\n" reads back holding the comment separator at that place. |
| Migrate.WriteAndRead | migrate.py:183-188 | The tabulation as written succeeds exactly when every row's keys are among the first row's keys and every field, read back, is within the reader's 131072-character limit. It then returns one row per row. |
| Migrate.LongCellRejected | migrate.py:221-223 | A cell that reads back longer than 131072 characters makes the read raise. |
| Migrate.NewKeyRejected | migrate.py:183-188 | A later row with a key the first row lacks makes the write fail. |
| Migrate.WriteAndReadKeeps | migrate.py:185-188 | A successful round trip keeps every cell up to line-end translation ("\r\n" and a lone "\r" read back as "\n"), and pads with "". |
| Migrate.AllKeysSpec | migrate.py:183 | A key is among all rows' keys exactly when some row has it. |
| Migrate.WriteAndReadAllKeeps | migrate.py:183-188 | The corrected tabulation keeps every cell up to line-end translation, pads with "", and gives all rows one set of columns. |
| Migrate.CorrectedAgrees | migrate.py:183-188 | Whenever the original succeeds, the corrected tabulation gives the same rows. |
| Migrate.FieldnameIffAnyKey | migrate.py:183-188 | When the original succeeds, its fieldnames are exactly all rows' keys. |
| Migrate.LinkColumnBreaksWrite | migrate.py:176-188 | Take a first card with no links in some non-Other bucket and a later card with links there. The original write fails on them. |
| Migrate.LaterKeyRejected | migrate.py:183-188 | Two rows, the second with a key the first lacks: the original write fails. |
| Migrate.PullRequestBatchRejected | migrate.py:176-188 | Take a first card without attachments and a second with a pull-request link. The original write fails on them; the corrected one has a GitHub PRs column. |
| Migrate.FetchByIds | migrate.py:44-52 | The kept ids are exactly the fetchable ids, in id order and with repeats. Each is paired with its fetched card. |
| Migrate.FetchPairsSpec | migrate.py:44-52 | The loop over ids keeps one entry per fetchable id, in order, with the card fetched for it. |
| Migrate.FetchCardsByIds | migrate.py:41-52 | The kept ids are the extracted ids of the items, in item order, with those that do not fetch dropped. Each is paired with its fetched card. |
| Migrate.PrepareRows | migrate.py:109-181 | One row per card, in order, each built from the card's details (or the card itself when they fail) and comments. |
| Migrate.ImportRows | migrate.py:227-239 | One plan per row, each the importer's plan for that row under the batch context. |
| Migrate.ImportList | migrate.py:267-280 | Using the corrected tabulation: one plan per open card of the named list, none when it has none. |
| Migrate.ImportCards | migrate.py:249-265 | Using the corrected tabulation: one plan per card that could be fetched. |
| Migrate.BatchAsWritten | migrate.py:176-188 | A batch run with the original tabulation raises exactly when its write refuses a row or its read meets a field over the limit. Otherwise it gives exactly the corrected batch's plans. |
| Migrate.ImportListAsWritten | migrate.py:267-280 | `import_list` as written raises exactly when the list has open cards and their batch cannot be written or read back. Otherwise it gives ImportList's plans. |
| Migrate.ImportCardsAsWritten | migrate.py:249-265 | `import_cards` as written raises exactly when some card was fetched and the batch cannot be written or read back. Otherwise it gives ImportCards' plans. |
| Migrate.LongCellBatchRejected | migrate.py:140-144 | A card whose base cell, such as a Comments cell joining many long comments, reads back longer than 131072 characters makes its whole batch raise as written. |
| Migrate.BatchAsWrittenRejected | migrate.py:176-188 | Take a batch whose first card has no links of some bucket while a later card has some. Run as written, it raises and plans nothing. |
| Migrate.BatchRowCell | migrate.py:155-174 | After tabulation, each base column of row i holds card i's cell with its line ends translated. |
| Migrate.BatchRowList | migrate.py:157 | After tabulation, every row's List value is the batch's list name with its line ends translated. |
| Migrate.BatchLabels | migrate.py:163 | The importer reads back exactly the card's label names, when they are clean names without "\r". |
| Migrate.LabelsOfCell | migrate.py:163 | A Labels cell written by format_labels reads back as the label names. |
| Migrate.BatchComments | migrate.py:140-144 | The importer reads back exactly the card's kept comments, when they are clean and hold no "\r". |
| Migrate.CommentsOfCell | migrate.py:144 | A Comments cell written by the comment loop reads back as the kept comments. |
| Migrate.BatchPriority | migrate.py:146-151 | The importer's trimmed Priority is the card's mapped priority. |
| Migrate.BatchStoryPoints | migrate.py:153-165 | The importer reads the card's story points back when they are non-negative, and none otherwise. |
| Migrate.BatchSharesState | migrate.py:211-216 | Every issue of a batch is created with the State the batch was given, unless the list name holds "\r": then its List value reads back changed, and no issue gets a State. |
| Migrate.ImportedNoState | migrate.py:227-236 | A row whose List value is not the state map's key is created with no State. |
| Migrate.ImportedState | migrate.py:227-236 | A row whose List value is the state map's key is created in that state. |

## Left out

- HTTP requests are parameters, not calls. This covers the Trello and YouTrack client
  methods (`_make_request`, `get_card_details`, `get_card_comments`, `get_board_data`,
  `get_users`, `get_projects`, `create_issue` sending, `assign_issue_multiple`,
  `set_sprint`, `set_labels`, `set_priority`, `set_story_points`, `add_comment`).
  A failed card-details request is `None` in `Remote.details`. The importer returns the
  requests as `Step` values.
- The responses of update requests are not modelled. This includes `add_comment`'s
  retry after a 403 and the exceptions each step may raise.
  - So the plan lists every step a row calls for. The source may stop short: one failing
    comment skips the comments after it, because a single `try` encloses the whole
    comment loop.
- `json.load` of `user_mapping.json` and `json.loads` of plugin values are abstracted.
  - The mapping file is `Option<MappingFile>`, with None for a missing or undecodable
    file.
  - A plugin value is `Option<map<string, Json>>`, with None when it fails to decode or
    is not an object.
- The CSV file is modelled by its effect on the rows (`Reread`). The file is written with
  `newline=''` (migrate.py:185) but read back without it (:221), so each cell comes back
  with "\r\n" and each lone "\r" turned into "\n" (`Newlines.ReadNewlines`). Quoting,
  encoding, the time-stamped file name and `os.remove` are left out.
- Interactive parts (`pick_target_state`, `ask_method_mode`, `main`, prompts and prints)
  and `.env` loading are left out: they are terminal I/O.
- The default assignee's email is a parameter (`Settings.defaultEmail`). In the source it
  is a fixed address.
- `Text.Lower` maps ASCII letters only. Python's `str.lower` also maps other Unicode
  letters. `strip` removes exactly the characters Python's `str.isspace` accepts.
- `Scalars.ParseInt` covers ASCII digits, an optional sign and underscores between
  digits. Python's `int()` also accepts non-ASCII digits.
- The JSON values read from plugin data (`Scalars.Json`) are null, booleans, integers and
  strings. Floats, arrays and objects are not represented, so a fractional size is not
  modelled.
- YouTrackImporter.AssignmentIn: its own contract only says an assignment is non-empty
  and needs a directory. The content is stated by ResolvedAssignment and
  DefaultAssignment.
- TrelloExporter.FormatMembers: its contract covers zero and one member only. Longer
  lists are stated by TrelloExporter.FormatMembersConcat.
- TrelloExporter.FormatLabels: its contract covers zero and one label only. Longer lists
  are stated by TrelloExporter.FormatLabelsConcat, and what a joined cell reads back as is
  stated by Migrate.LabelsOfCell.
- Migrate.OpenCards: its contract states membership only. Order is stated by
  Migrate.OpenCardsConcat and OpenCardsSingle.
- Migrate.ImportList: it uses the corrected tabulation, so it plans every card. As
  written, the source raises on a batch the writer refuses, which is modelled by
  Migrate.ImportListAsWritten. The contract states only one plan per card. What each plan
  holds is stated by Migrate.BatchSharesState, BatchLabels, BatchComments, BatchPriority
  and BatchStoryPoints.
- Migrate.ImportCards: as for ImportList, it uses the corrected tabulation and its
  contract states only the number of plans. The source's behaviour is
  Migrate.ImportCardsAsWritten.
- Migrate.WriteAndReadAll: the corrected tabulation reads every cell back whatever its
  length. The reader's 131072-character field limit (`csv.field_size_limit()`) is
  modelled only in the tabulation as written (Migrate.WriteAndRead). So Migrate.Batch,
  ImportList and ImportCards plan a card even when one of its cells is over the limit,
  where the source raises (Migrate.LongCellBatchRejected).
- Migrate.ImportUserMap: assumes every record of the mapping file is an object whose
  fields are strings or absent. In the source, a null `youtrack_email` or
  `trello_fullname` makes `.strip()` raise. The catch-all then keeps the map built from
  the records before it. When only `trello_fullname` is null, it also keeps that record's
  username entry, filed at :203 before the raise at :205. That partial map is not
  modelled.
- Migrate.DisplayNameTable: assumes the same of the records. In the source, a record that
  is not an object, or a truthy `trello_fullname` that is not a string, raises past the
  `FileNotFoundError`/`JSONDecodeError` handler, and the migrator is never built. That is
  not modelled.
- Migrate.BatchLabels: stated for label names that are non-empty, trimmed, comma-free
  and without "\r". Other names are split, trimmed or translated when read back.
- Migrate.BatchComments: stated for comments that are trimmed, hold no "\r" and cannot
  form the separator. Others are split, trimmed or translated when read back;
  Newlines.CrLfSeparatorReadBack shows a "\r\n---\r\n" inside a comment becoming a
  separator.
- Migrate.MappingFile: the mapping file is a sequence of (username, record) pairs, so a
  username may repeat. `json.load` keeps only the last record of a repeated key, while
  Migrate.DisplayNameTable and Migrate.ImportUserMap file every record in order.
  A top-level value that is not an object is not represented either. Its `.items()`
  raises past the handler at migrate.py:29, so the migrator is never built.

## Findings

| source | as written | input that shows it | evidently intended | confidence | as-written member | corrected member |
|---|---|---|---|---|---|---|
| migrate.py:183-188 | The CSV fieldnames are the first row's keys only. The writer raises ValueError for any later row with a key outside them, and link-bucket columns are present only for cards that have such links. | Two cards in one batch. The first has no attachments; the second has an attachment linking to `github.com/pull/`. Its row adds a GitHub PRs column that the first row lacks. | Fieldnames are the union of all rows' keys, so every card is written and imported. | not executed | Migrate.PullRequestBatchRejected | Migrate.WriteAndReadAll |
| migrate.py:267-280 | Nothing catches the ValueError above, so `import_list` and `import_cards` raise and no card of the batch is imported. | A list whose first open card has no attachments and whose second open card links to `github.com/pull/`. | Every card of the batch is imported. | not executed | Migrate.BatchAsWrittenRejected | Migrate.ImportList |

In the corrected tabulation, `Migrate.WriteAndReadAllKeeps` proves that every cell
survives. `Migrate.CorrectedAgrees` proves that the corrected tabulation gives the same
rows whenever the original write succeeds. The batch pipeline (`Migrate.Batch`,
`Migrate.ImportList`, `Migrate.ImportCards`) uses the corrected tabulation.
`Migrate.BatchAsWritten`, `Migrate.ImportListAsWritten` and `Migrate.ImportCardsAsWritten`
run the original one. They raise exactly when its write fails or its read meets a field
longer than the reader's limit, and otherwise agree with the corrected pipeline.

## Behaviour worth knowing

- `extract_card_id_from_url` is not idempotent. The id taken from a URL is not stripped
  again, so a second extraction can change it (`Migrate.UrlIdNotIdempotent`).
- When a name repeats, two functions choose differently:
  - `fetch_cards_from_list` uses the first list with that name;
  - `get_all_lists_with_cards` keeps the last list with cards under that name
    (`Migrate.DuplicateNamesDisagree`).
- `get_board_states` keeps the last column of a repeated column name
  (`YouTrackImporter.BoardStateLastWins`).
- `get_card_story_points` evaluates `size or points or estimate`. This yields `estimate`
  even when it is 0, so a card whose only field is `estimate: 0` has 0 points and does
  not fall through (`TrelloExporter.ZeroEstimateCounts`).
- The CSV file is read back with line ends translated. A comment holding "\r\n---\r\n"
  therefore reads back holding the comment separator and is posted as two comments
  (`Newlines.CrLfSeparatorReadBack`).
- The CSV reader refuses a field longer than 131072 characters. A card whose comments
  join into a longer Comments cell therefore stops the whole batch before any issue is
  created (`Migrate.LongCellBatchRejected`).
- A list name holding "\r" reads back changed, so it no longer matches the state map's
  key and no issue of the batch gets a State (`Migrate.BatchSharesState`).
