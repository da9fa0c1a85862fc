/** The card-side field formatting of the Trello exporter (trello_exporter.py): checklist,
    attachment, member and label text, the link buckets drawn from attachment URLs, and
    the story points and priority read from decoded Power-Up plugin data. */
module TrelloExporter {
  import opened Wrappers
  import opened Seqs
  import opened Text
  import opened Scalars
  import CardRow

  // Missing JSON keys that Python reads with `get(k, '')`, `get(k, [])` or as falsy
  // are modelled as the empty value; Option marks the keys whose absence is observable.

  datatype CheckItem = CheckItem(name: string, state: string)

  datatype Checklist = Checklist(name: string, checkItems: seq<CheckItem>)

  datatype Attachment = Attachment(name: string, url: string, isUpload: bool)

  /** `fullName` is None when the key is absent; only then does the username stand in. */
  datatype Member = Member(fullName: Option<string>, username: string, email: string)

  /** `name` is None when the key is absent; only then does the colour stand in. */
  datatype Label = Label(name: Option<string>, color: string)

  /** One `pluginData` entry. `value` is the JSON object its `value` text decodes to, or
      None when the text is empty, fails to decode, or decodes to something other than
      an object (each of which the source skips). */
  datatype PluginEntry = PluginEntry(idPlugin: Option<string>, value: Option<map<string, Json>>)

  /** A Trello card as the board and card-detail endpoints return it. */
  datatype Card = Card(
    id: string,
    name: string,
    desc: string,
    due: string,
    dueComplete: bool,
    labels: seq<Label>,
    shortUrl: string,
    idList: Option<string>,
    closed: bool,
    members: seq<Member>,
    attachments: seq<Attachment>,
    checklists: seq<Checklist>,
    pluginData: seq<PluginEntry>)

  // ---------------------------------------------------------------- checklists

  function ItemMark(item: CheckItem): string {
    if item.state == "complete" then "\U{2713}" else "\U{2610}"
  }

  /** The text of one checklist item, without the newline that precedes it. */
  function ItemLine(item: CheckItem): string {
    "  " + ItemMark(item) + " " + item.name
  }

  /** What the inner loop appends: a newline and the item text per item. */
  function ItemLines(items: seq<CheckItem>): string {
    if |items| == 0 then "" else "\n" + ItemLine(items[0]) + ItemLines(items[1..])
  }

  function ChecklistBlock(checklist: Checklist): string {
    checklist.name + ":" + ItemLines(checklist.checkItems)
  }

  /** `format_checklist_data`: one block per checklist, blocks separated by a blank line. */
  function FormatChecklists(checklists: seq<Checklist>): (r: string)
    ensures r == "" <==> |checklists| == 0
  {
    if |checklists| == 0 then ""
    else
      var blocks := Map(ChecklistBlock, checklists);
      assert blocks[0][|checklists[0].name|] == ':';
      Join(blocks, "\n\n")
  }

  /** The lines of one checklist block: the header, then one line per item. */
  function ChecklistLines(checklist: Checklist): (r: seq<string>)
    ensures |r| == 1 + |checklist.checkItems|
  {
    [checklist.name + ":"] + Map(ItemLine, checklist.checkItems)
  }

  /** The lines of all blocks, with one empty line between consecutive checklists. */
  function RenderedLines(checklists: seq<Checklist>): seq<string>
    requires |checklists| > 0
  {
    if |checklists| == 1 then ChecklistLines(checklists[0])
    else ChecklistLines(checklists[0]) + [""] + RenderedLines(checklists[1..])
  }

  predicate NoNewlines(checklist: Checklist) {
    && '\n' !in checklist.name
    && forall i :: 0 <= i < |checklist.checkItems| ==> '\n' !in checklist.checkItems[i].name
  }

  lemma {:induction false} ItemLinesJoin(header: string, items: seq<CheckItem>)
    ensures header + ItemLines(items) == Join([header] + Map(ItemLine, items), "\n")
    decreases |items|
  {
    if |items| > 0 {
      var line := ItemLine(items[0]);
      var lines := Map(ItemLine, items);
      ItemLinesJoin(line, items[1..]);
      MapTail(ItemLine, items);
      HeadTail(lines);
      ConsTail(header, lines);
      Regroup(header, "\n", line, ItemLines(items[1..]));
    } else {
      assert [header] + Map(ItemLine, items) == [header];
    }
  }

  lemma {:induction false} FormatChecklistsJoin(checklists: seq<Checklist>)
    requires |checklists| > 0
    ensures Join(Map(ChecklistBlock, checklists), "\n\n") == Join(RenderedLines(checklists), "\n")
  {
    if |checklists| > 1 {
      FormatChecklistsJoin(checklists[1..]);
      ChecklistsJoinStep(checklists);
    } else {
      ItemLinesJoin(checklists[0].name + ":", checklists[0].checkItems);
    }
  }

  lemma ChecklistsJoinStep(checklists: seq<Checklist>)
    requires |checklists| > 1
    requires Join(Map(ChecklistBlock, checklists[1..]), "\n\n") == Join(RenderedLines(checklists[1..]), "\n")
    ensures Join(Map(ChecklistBlock, checklists), "\n\n") == Join(RenderedLines(checklists), "\n")
  {
    var c := checklists[0];
    var rest := checklists[1..];
    var lines := ChecklistLines(c);
    var tail := RenderedLines(rest);
    ItemLinesJoin(c.name + ":", c.checkItems);
    MapTail(ChecklistBlock, checklists);
    var a := Join(lines, "\n");
    var b := Join(tail, "\n");
    assert Join(Map(ChecklistBlock, checklists), "\n\n") == a + "\n\n" + b;
    JoinBlankBetween(lines, tail);
  }

  lemma {:induction false} RenderedLinesNoNewline(checklists: seq<Checklist>)
    requires |checklists| > 0
    requires forall i :: 0 <= i < |checklists| ==> NoNewlines(checklists[i])
    ensures forall k :: 0 <= k < |RenderedLines(checklists)| ==> '\n' !in RenderedLines(checklists)[k]
  {
    var c := checklists[0];
    var lines := ChecklistLines(c);
    forall k | 0 <= k < |lines|
      ensures '\n' !in lines[k]
    {
      if k > 0 {
        assert lines[k] == ItemLine(c.checkItems[k - 1]);
      }
    }
    if |checklists| > 1 {
      RenderedLinesNoNewline(checklists[1..]);
    }
  }

  /** Read line by line, the checklist text is each checklist's "name:" header followed by
      one "  ✓ item" or "  ☐ item" line per item, with an empty line between checklists. */
  lemma {:induction false} FormatChecklistsLines(checklists: seq<Checklist>)
    requires |checklists| > 0
    requires forall i :: 0 <= i < |checklists| ==> NoNewlines(checklists[i])
    ensures Split(FormatChecklists(checklists), "\n") == RenderedLines(checklists)
  {
    FormatChecklistsJoin(checklists);
    var lines := RenderedLines(checklists);
    RenderedLinesNoNewline(checklists);
    forall k | 0 <= k < |lines|
      ensures SplitsCleanly(lines[k], "\n")
    {
      CleanWithoutFirstChar(lines[k], "\n");
    }
    SplitJoin(lines, "\n");
  }

  // ---------------------------------------------------------------- attachments

  function AttachmentLine(attachment: Attachment): string {
    attachment.name + ": " + attachment.url
  }

  /** `format_attachments`: one "name: url" line per attachment. */
  function FormatAttachments(attachments: seq<Attachment>): (r: string)
    ensures r == "" <==> |attachments| == 0
  {
    if |attachments| == 0 then ""
    else
      var lines := Map(AttachmentLine, attachments);
      assert lines[0][|attachments[0].name|] == ':';
      Join(lines, "\n")
  }

  /** Read line by line, the attachment text lists each attachment once, in order. */
  lemma {:induction false} FormatAttachmentsLines(attachments: seq<Attachment>)
    requires |attachments| > 0
    requires forall i :: 0 <= i < |attachments| ==>
               '\n' !in attachments[i].name && '\n' !in attachments[i].url
    ensures Split(FormatAttachments(attachments), "\n") == Map(AttachmentLine, attachments)
  {
    var lines := Map(AttachmentLine, attachments);
    forall k | 0 <= k < |lines|
      ensures SplitsCleanly(lines[k], "\n")
    {
      CleanWithoutFirstChar(lines[k], "\n");
    }
    SplitJoin(lines, "\n");
  }

  // ---------------------------------------------------------------- link buckets

  datatype Bucket = GitHubPRs | GitHubIssues | GitHubCommits | GoogleDriveFiles | OtherLinks

  /** The dict's insertion order. */
  const BucketOrder: seq<Bucket> := [GitHubPRs, GitHubIssues, GitHubCommits, GoogleDriveFiles, OtherLinks]

  function BucketRank(b: Bucket): (r: nat)
    ensures r < |BucketOrder| && BucketOrder[r] == b
  {
    match b
    case GitHubPRs => 0
    case GitHubIssues => 1
    case GitHubCommits => 2
    case GoogleDriveFiles => 3
    case OtherLinks => 4
  }

  /** The bucket's key in the exported dict, which is also its row column. */
  function BucketName(b: Bucket): string {
    match b
    case GitHubPRs => CardRow.GitHubPRsColumn
    case GitHubIssues => CardRow.GitHubIssuesColumn
    case GitHubCommits => CardRow.GitHubCommitsColumn
    case GoogleDriveFiles => CardRow.GoogleDriveFilesColumn
    case OtherLinks => CardRow.OtherLinksColumn
  }

  predicate IsGitHub(url: string) {
    Contains(Lower(url), "github.com")
  }

  predicate IsGoogleDoc(url: string) {
    Contains(Lower(url), "drive.google.com") || Contains(Lower(url), "docs.google.com")
  }

  /** The bucket an attachment's link goes to, if any. The host tests ignore case; the
      GitHub path tests do not. */
  function Classify(a: Attachment): Option<Bucket> {
    if a.isUpload then None
    else if IsGitHub(a.url) then
      if Contains(a.url, "/pull/") then Some(GitHubPRs)
      else if Contains(a.url, "/issues/") then Some(GitHubIssues)
      else if Contains(a.url, "/commit/") then Some(GitHubCommits)
      else None
    else if IsGoogleDoc(a.url) then Some(GoogleDriveFiles)
    else if a.url != "" && !a.isUpload then Some(OtherLinks)
    else None
  }

  /** Which bucket each attachment lands in: uploads nowhere; a GitHub link by the first
      of "/pull/", "/issues/", "/commit/" it contains; otherwise a Google document link
      to Drive and any other non-empty link to Other Links. */
  lemma ClassifySpec(a: Attachment)
    ensures a.isUpload ==> Classify(a) == None
    ensures Classify(a) == Some(GitHubPRs) <==>
              !a.isUpload && IsGitHub(a.url) && Contains(a.url, "/pull/")
    ensures Classify(a) == Some(GitHubIssues) <==>
              !a.isUpload && IsGitHub(a.url) && !Contains(a.url, "/pull/") && Contains(a.url, "/issues/")
    ensures Classify(a) == Some(GitHubCommits) <==>
              && !a.isUpload && IsGitHub(a.url) && !Contains(a.url, "/pull/")
              && !Contains(a.url, "/issues/") && Contains(a.url, "/commit/")
    ensures Classify(a) == Some(GoogleDriveFiles) <==> !a.isUpload && !IsGitHub(a.url) && IsGoogleDoc(a.url)
    ensures Classify(a) == Some(OtherLinks) <==>
              !a.isUpload && !IsGitHub(a.url) && !IsGoogleDoc(a.url) && a.url != ""
  {
  }

  /** A GitHub link that is not a pull request, issue or commit is dropped: it lands in
      no bucket, not even Other Links. */
  lemma GitHubOtherDropped(a: Attachment)
    requires IsGitHub(a.url)
    requires !Contains(a.url, "/pull/") && !Contains(a.url, "/issues/") && !Contains(a.url, "/commit/")
    ensures Classify(a) == None
  {
  }

  /** The host test of the pull-request URL used in the examples below. */
  lemma PullRequestHost()
    ensures IsGitHub("github.com/pull/")
  {
    assert "github.com/pull/"[0..10] == "github.com";
    LowercaseContains("github.com/pull/", "github.com", 0);
  }

  /** The path test of the same URL. */
  lemma PullRequestPath()
    ensures Contains("github.com/pull/", "/pull/")
  {
    assert "github.com/pull/"[10..16] == "/pull/";
    assert OccursAt("github.com/pull/", "/pull/", 10);
  }

  /** A pull-request link lands in the GitHub PRs bucket. */
  lemma PullRequestLink()
    ensures BucketLinks([Attachment("PR", "github.com/pull/", false)], GitHubPRs, true) != []
  {
    var a := Attachment("PR", "github.com/pull/", false);
    PullRequestHost();
    PullRequestPath();
    ClassifySpec(a);
    assert InBucket(Classify, GitHubPRs)(a);
    assert Filter(InBucket(Classify, GitHubPRs), [a]) == [a];
  }

  function FormatLink(name: string, url: string, markdown: bool): string {
    if markdown then "[" + name + "](" + url + ")" else name + " - " + url
  }

  function LinkOf(markdown: bool): Attachment -> string {
    (a: Attachment) => FormatLink(a.name, a.url, markdown)
  }

  /** A classifier: the bucket an attachment goes to, if any. The proofs about the
      single pass hold for any classifier and are used with Classify. */
  type Classifier = Attachment -> Option<Bucket>

  function InBucket(cls: Classifier, b: Bucket): Attachment -> bool {
    (a: Attachment) => cls(a) == Some(b)
  }

  /** The formatted links that bucket `b` receives under `cls`, in attachment order. */
  function BucketLinksBy(cls: Classifier, attachments: seq<Attachment>, b: Bucket, markdown: bool): seq<string> {
    Map(LinkOf(markdown), Filter(InBucket(cls, b), attachments))
  }

  /** The formatted links that bucket `b` receives, in attachment order. */
  function BucketLinks(attachments: seq<Attachment>, b: Bucket, markdown: bool): seq<string> {
    BucketLinksBy(Classify, attachments, b, markdown)
  }

  lemma BucketLinksSnoc(cls: Classifier, attachments: seq<Attachment>, a: Attachment, b: Bucket, markdown: bool)
    ensures BucketLinksBy(cls, attachments + [a], b, markdown)
         == BucketLinksBy(cls, attachments, b, markdown)
          + (if cls(a) == Some(b) then [FormatLink(a.name, a.url, markdown)] else [])
  {
    FilterConcat(InBucket(cls, b), attachments, [a]);
    MapConcat(LinkOf(markdown), Filter(InBucket(cls, b), attachments), Filter(InBucket(cls, b), [a]));
  }

  /** Bucket-name pairs for the buckets in `buckets` whose link list is non-empty, in
      that order, each with its links joined by newlines. */
  function LinksFor(links: Bucket -> seq<string>, buckets: seq<Bucket>): seq<(Bucket, string)> {
    if |buckets| == 0 then []
    else
      LinksHead(links, buckets[0]) + LinksFor(links, buckets[1..])
  }

  /** The pair contributed by the first bucket, if it has links. */
  function LinksHead(links: Bucket -> seq<string>, b: Bucket): seq<(Bucket, string)> {
    Entry(b, links(b))
  }

  /** The pair for one bucket list: none when the list is empty. */
  function Entry(b: Bucket, links: seq<string>): seq<(Bucket, string)> {
    if links != [] then [(b, Join(links, "\n"))] else []
  }

  lemma LinksForUnfold(links: Bucket -> seq<string>, buckets: seq<Bucket>)
    requires |buckets| > 0
    ensures LinksFor(links, buckets) == LinksHead(links, buckets[0]) + LinksFor(links, buckets[1..])
  {
  }

  /** Every pair names a listed bucket with links, and carries those links joined. */
  lemma {:induction false} LinksForPairs(links: Bucket -> seq<string>, buckets: seq<Bucket>, i: int)
    requires 0 <= i < |LinksFor(links, buckets)|
    ensures LinksFor(links, buckets)[i].0 in buckets
    ensures links(LinksFor(links, buckets)[i].0) != []
    ensures LinksFor(links, buckets)[i].1 == Join(links(LinksFor(links, buckets)[i].0), "\n")
    decreases |buckets|
  {
    LinksForUnfold(links, buckets);
    var head := LinksHead(links, buckets[0]);
    if i >= |head| {
      LinksForPairs(links, buckets[1..], i - |head|);
    }
  }

  /** Every listed bucket with links has a pair. */
  lemma {:induction false} LinksForComplete(links: Bucket -> seq<string>, buckets: seq<Bucket>, b: Bucket)
    requires b in buckets && links(b) != []
    ensures exists i :: 0 <= i < |LinksFor(links, buckets)| && LinksFor(links, buckets)[i].0 == b
    decreases |buckets|
  {
    LinksForUnfold(links, buckets);
    var head := LinksHead(links, buckets[0]);
    var rest := LinksFor(links, buckets[1..]);
    if b == buckets[0] {
      assert LinksFor(links, buckets)[0].0 == b;
    } else {
      assert b in buckets[1..];
      LinksForComplete(links, buckets[1..], b);
      var k :| 0 <= k < |rest| && rest[k].0 == b;
      assert LinksFor(links, buckets)[|head| + k] == rest[k];
    }
  }

  /** Pairs follow the ranks of the buckets when the buckets are listed in rank order. */
  lemma {:induction false} LinksForSorted(links: Bucket -> seq<string>, buckets: seq<Bucket>, i: int, j: int)
    requires forall p, q :: 0 <= p < q < |buckets| ==> BucketRank(buckets[p]) < BucketRank(buckets[q])
    requires 0 <= i < j < |LinksFor(links, buckets)|
    ensures BucketRank(LinksFor(links, buckets)[i].0) < BucketRank(LinksFor(links, buckets)[j].0)
    decreases |buckets|
  {
    LinksForUnfold(links, buckets);
    var head := LinksHead(links, buckets[0]);
    var rest := LinksFor(links, buckets[1..]);
    var r := LinksFor(links, buckets);
    assert r[j] == rest[j - |head|];
    if i < |head| {
      LinksForPairs(links, buckets[1..], j - |head|);
      var k :| 0 <= k < |buckets[1..]| && buckets[1..][k] == rest[j - |head|].0;
      assert buckets[k + 1] == rest[j - |head|].0;
    } else {
      assert r[i] == rest[i - |head|];
      LinksForSorted(links, buckets[1..], i - |head|, j - |head|);
    }
  }

  lemma LinksForCons(links: Bucket -> seq<string>, b: Bucket, bs: seq<Bucket>)
    ensures LinksFor(links, [b] + bs) == LinksHead(links, b) + LinksFor(links, bs)
  {
    assert ([b] + bs)[1..] == bs;
  }

  lemma LinksForTwo(links: Bucket -> seq<string>, b1: Bucket, b2: Bucket)
    ensures LinksFor(links, [b1, b2]) == LinksHead(links, b1) + LinksHead(links, b2)
  {
    LinksForCons(links, b1, [b2]);
    LinksForCons(links, b2, []);
    assert [b1] + [b2] == [b1, b2];
    assert [b2] + [] == [b2];
  }

  lemma LinksForThree(links: Bucket -> seq<string>, b1: Bucket, b2: Bucket, b3: Bucket)
    ensures LinksFor(links, [b1, b2, b3]) == LinksHead(links, b1) + (LinksHead(links, b2) + LinksHead(links, b3))
  {
    LinksForCons(links, b1, [b2, b3]);
    LinksForTwo(links, b2, b3);
    assert [b1] + [b2, b3] == [b1, b2, b3];
  }

  lemma LinksForFour(links: Bucket -> seq<string>, b1: Bucket, b2: Bucket, b3: Bucket, b4: Bucket)
    ensures LinksFor(links, [b1, b2, b3, b4])
         == LinksHead(links, b1) + (LinksHead(links, b2) + (LinksHead(links, b3) + LinksHead(links, b4)))
  {
    LinksForCons(links, b1, [b2, b3, b4]);
    LinksForThree(links, b2, b3, b4);
    assert [b1] + [b2, b3, b4] == [b1, b2, b3, b4];
  }

  lemma LinksForFive(links: Bucket -> seq<string>, b1: Bucket, b2: Bucket, b3: Bucket, b4: Bucket, b5: Bucket)
    ensures LinksFor(links, [b1, b2, b3, b4, b5])
         == LinksHead(links, b1) + (LinksHead(links, b2) + (LinksHead(links, b3)
          + (LinksHead(links, b4) + LinksHead(links, b5))))
  {
    LinksForCons(links, b1, [b2, b3, b4, b5]);
    LinksForFour(links, b2, b3, b4, b5);
    assert [b1] + [b2, b3, b4, b5] == [b1, b2, b3, b4, b5];
  }

  lemma LinksForUnrolled(links: Bucket -> seq<string>)
    ensures LinksFor(links, BucketOrder)
         == LinksHead(links, GitHubPRs) + (LinksHead(links, GitHubIssues) + (LinksHead(links, GitHubCommits)
          + (LinksHead(links, GoogleDriveFiles) + LinksHead(links, OtherLinks))))
  {
    LinksForFive(links, GitHubPRs, GitHubIssues, GitHubCommits, GoogleDriveFiles, OtherLinks);
  }

  function LinksOf(attachments: seq<Attachment>, markdown: bool): Bucket -> seq<string> {
    b => BucketLinks(attachments, b, markdown)
  }

  /** The dict `extract_powerup_links` returns, as its items in order. */
  function PowerupLinks(attachments: seq<Attachment>, markdown: bool): seq<(Bucket, string)> {
    LinksFor(LinksOf(attachments, markdown), BucketOrder)
  }

  lemma BucketOrderSorted()
    ensures forall p, q :: 0 <= p < q < |BucketOrder| ==> BucketRank(BucketOrder[p]) < BucketRank(BucketOrder[q])
  {
  }

  /** The pairs for the buckets in bucket order: exactly the buckets with links, in rank
      order, each with its links joined by newlines. */
  lemma LinksInOrder(links: Bucket -> seq<string>)
    ensures var r := LinksFor(links, BucketOrder);
      forall i :: 0 <= i < |r| ==> links(r[i].0) != [] && r[i].1 == Join(links(r[i].0), "\n")
    ensures var r := LinksFor(links, BucketOrder);
      forall b :: links(b) != [] ==> exists i :: 0 <= i < |r| && r[i].0 == b
    ensures var r := LinksFor(links, BucketOrder);
      forall i, j :: 0 <= i < j < |r| ==> BucketRank(r[i].0) < BucketRank(r[j].0)
  {
    var r := LinksFor(links, BucketOrder);
    forall i | 0 <= i < |r|
      ensures links(r[i].0) != [] && r[i].1 == Join(links(r[i].0), "\n")
    {
      LinksForPairs(links, BucketOrder, i);
    }
    forall b | links(b) != []
      ensures exists i :: 0 <= i < |r| && r[i].0 == b
    {
      assert BucketOrder[BucketRank(b)] == b;
      LinksForComplete(links, BucketOrder, b);
    }
    BucketOrderSorted();
    forall i, j | 0 <= i < j < |r|
      ensures BucketRank(r[i].0) < BucketRank(r[j].0)
    {
      LinksForSorted(links, BucketOrder, i, j);
    }
  }

  /** The extracted links hold exactly the buckets that received a link, in the fixed
      bucket order, each with its links joined by newlines. */
  lemma PowerupLinksSpec(attachments: seq<Attachment>, markdown: bool)
    ensures var r := PowerupLinks(attachments, markdown);
      forall i :: 0 <= i < |r| ==>
        BucketLinks(attachments, r[i].0, markdown) != []
        && r[i].1 == Join(BucketLinks(attachments, r[i].0, markdown), "\n")
    ensures var r := PowerupLinks(attachments, markdown);
      forall b :: BucketLinks(attachments, b, markdown) != [] ==>
        exists i :: 0 <= i < |r| && r[i].0 == b
    ensures var r := PowerupLinks(attachments, markdown);
      forall i, j :: 0 <= i < j < |r| ==> BucketRank(r[i].0) < BucketRank(r[j].0)
  {
    var links := LinksOf(attachments, markdown);
    assert forall b :: links(b) == BucketLinks(attachments, b, markdown);
    LinksInOrder(links);
  }

  /** The five lists `extract_powerup_links` fills, one per bucket. */
  datatype BucketLists = BucketLists(prs: seq<string>, issues: seq<string>, commits: seq<string>,
                                     drive: seq<string>, other: seq<string>)
  {
    function Get(b: Bucket): seq<string> {
      match b
      case GitHubPRs => prs
      case GitHubIssues => issues
      case GitHubCommits => commits
      case GoogleDriveFiles => drive
      case OtherLinks => other
    }
  }

  const NoLinks := BucketLists([], [], [], [], [])

  /** One step of the pass: the link goes to the end of its bucket's list, if any. */
  function AddLink(acc: BucketLists, c: Option<Bucket>, link: string): (r: BucketLists)
    ensures forall b :: r.Get(b) == acc.Get(b) + (if c == Some(b) then [link] else [])
  {
    match c
    case None => acc
    case Some(GitHubPRs) => acc.(prs := acc.prs + [link])
    case Some(GitHubIssues) => acc.(issues := acc.issues + [link])
    case Some(GitHubCommits) => acc.(commits := acc.commits + [link])
    case Some(GoogleDriveFiles) => acc.(drive := acc.drive + [link])
    case Some(OtherLinks) => acc.(other := acc.other + [link])
  }

  /** The lists after the pass over `attachments`. */
  function Collected(cls: Classifier, attachments: seq<Attachment>, markdown: bool): BucketLists
    decreases |attachments|
  {
    if |attachments| == 0 then NoLinks
    else
      var a := attachments[|attachments| - 1];
      AddLink(Collected(cls, attachments[..|attachments| - 1], markdown), cls(a), FormatLink(a.name, a.url, markdown))
  }

  /** After the pass, each bucket's list holds exactly the formatted links of the
      attachments classified into it, in attachment order. */
  lemma {:induction false} CollectedBucket(cls: Classifier, attachments: seq<Attachment>, b: Bucket, markdown: bool)
    ensures Collected(cls, attachments, markdown).Get(b) == BucketLinksBy(cls, attachments, b, markdown)
    decreases |attachments|
  {
    if |attachments| > 0 {
      var init := attachments[..|attachments| - 1];
      var a := attachments[|attachments| - 1];
      assert attachments == init + [a];
      CollectedBucket(cls, init, b, markdown);
      CollectedStep(cls, init, a, b, markdown);
      BucketLinksSnoc(cls, init, a, b, markdown);
    }
  }

  /** One more attachment appends its link to its own bucket's list only. */
  lemma CollectedStep(cls: Classifier, init: seq<Attachment>, a: Attachment, b: Bucket, markdown: bool)
    ensures Collected(cls, init + [a], markdown).Get(b)
         == Collected(cls, init, markdown).Get(b) + (if cls(a) == Some(b) then [FormatLink(a.name, a.url, markdown)] else [])
  {
    var attachments := init + [a];
    assert attachments[..|attachments| - 1] == init;
  }

  /** The single pass of `extract_powerup_links` over the attachments. */
  method CollectBuckets(attachments: seq<Attachment>, markdown: bool) returns (acc: BucketLists)
    ensures forall b :: acc.Get(b) == BucketLinks(attachments, b, markdown)
  {
    acc := NoLinks;
    var i := 0;
    while i < |attachments|
      invariant 0 <= i <= |attachments|
      invariant acc == Collected(Classify, attachments[..i], markdown)
    {
      var a := attachments[i];
      assert attachments[..i + 1][..i] == attachments[..i];
      acc := AddLink(acc, Classify(a), FormatLink(a.name, a.url, markdown));
      i := i + 1;
    }
    assert attachments[..i] == attachments;
    forall b ensures acc.Get(b) == BucketLinks(attachments, b, markdown) {
      CollectedBucket(Classify, attachments, b, markdown);
    }
  }

  /** The result dict built from the five lists, one `if` per bucket in bucket order. */
  function Assemble(acc: BucketLists): seq<(Bucket, string)> {
    Entry(GitHubPRs, acc.prs) + Entry(GitHubIssues, acc.issues) + Entry(GitHubCommits, acc.commits)
      + Entry(GoogleDriveFiles, acc.drive) + Entry(OtherLinks, acc.other)
  }

  lemma AssembleLinksFor(links: Bucket -> seq<string>, acc: BucketLists)
    requires forall b :: acc.Get(b) == links(b)
    ensures Assemble(acc) == LinksFor(links, BucketOrder)
  {
    LinksForUnrolled(links);
    assert acc.prs == links(GitHubPRs) && acc.issues == links(GitHubIssues) && acc.commits == links(GitHubCommits);
    assert acc.drive == links(GoogleDriveFiles) && acc.other == links(OtherLinks);
    ConcatFive(Entry(GitHubPRs, acc.prs), Entry(GitHubIssues, acc.issues), Entry(GitHubCommits, acc.commits),
               Entry(GoogleDriveFiles, acc.drive), Entry(OtherLinks, acc.other));
  }

  /** `extract_powerup_links`: the non-empty bucket lists, in bucket order, each joined
      by newlines. */
  method ExtractPowerupLinks(attachments: seq<Attachment>, markdown: bool) returns (r: seq<(Bucket, string)>)
    ensures r == PowerupLinks(attachments, markdown)
  {
    var acc := CollectBuckets(attachments, markdown);
    r := [];
    if acc.prs != [] { r := r + [(GitHubPRs, Join(acc.prs, "\n"))]; }
    assert r == Entry(GitHubPRs, acc.prs);
    var r1 := r;
    if acc.issues != [] { r := r + [(GitHubIssues, Join(acc.issues, "\n"))]; }
    assert r == r1 + Entry(GitHubIssues, acc.issues);
    var r2 := r;
    if acc.commits != [] { r := r + [(GitHubCommits, Join(acc.commits, "\n"))]; }
    assert r == r2 + Entry(GitHubCommits, acc.commits);
    var r3 := r;
    if acc.drive != [] { r := r + [(GoogleDriveFiles, Join(acc.drive, "\n"))]; }
    assert r == r3 + Entry(GoogleDriveFiles, acc.drive);
    var r4 := r;
    if acc.other != [] { r := r + [(OtherLinks, Join(acc.other, "\n"))]; }
    assert r == r4 + Entry(OtherLinks, acc.other);
    AssembleLinksFor(LinksOf(attachments, markdown), acc);
  }

  /** Two link choices that agree on every listed bucket give the same pairs. */
  lemma {:induction false} LinksForAgree(l1: Bucket -> seq<string>, l2: Bucket -> seq<string>, buckets: seq<Bucket>)
    requires forall b :: b in buckets ==> l1(b) == l2(b)
    ensures LinksFor(l1, buckets) == LinksFor(l2, buckets)
    decreases |buckets|
  {
    if |buckets| > 0 {
      assert LinksHead(l1, buckets[0]) == LinksHead(l2, buckets[0]);
      LinksForAgree(l1, l2, buckets[1..]);
    }
  }

  function NotUpload(a: Attachment): bool {
    !a.isUpload
  }

  lemma {:induction false} FilterUploads(cls: Classifier, attachments: seq<Attachment>, b: Bucket)
    requires forall a: Attachment :: a.isUpload ==> cls(a) == None
    ensures Filter(InBucket(cls, b), Filter(NotUpload, attachments)) == Filter(InBucket(cls, b), attachments)
  {
    if |attachments| > 0 {
      FilterUploads(cls, attachments[1..], b);
    }
  }

  /** Uploaded files never reach any bucket: dropping every upload from the attachment
      list leaves the extracted links unchanged. */
  lemma UploadsIgnored(attachments: seq<Attachment>, markdown: bool)
    ensures PowerupLinks(Filter(NotUpload, attachments), markdown) == PowerupLinks(attachments, markdown)
  {
    forall b: Bucket
      ensures BucketLinks(Filter(NotUpload, attachments), b, markdown) == BucketLinks(attachments, b, markdown)
    {
      forall a: Attachment ensures a.isUpload ==> Classify(a) == None {
        ClassifySpec(a);
      }
      FilterUploads(Classify, attachments, b);
    }
    LinksForAgree(LinksOf(Filter(NotUpload, attachments), markdown), LinksOf(attachments, markdown), BucketOrder);
  }

  // ---------------------------------------------------------------- members and labels

  function MemberName(m: Member): string {
    m.fullName.GetOr(m.username)
  }

  /** `format_members`: the members' display names joined by ", ". */
  function FormatMembers(members: seq<Member>): (r: string)
    ensures |members| == 0 ==> r == ""
    ensures |members| == 1 ==> r == MemberName(members[0])
  {
    if |members| == 0 then "" else Join(Map(MemberName, members), ", ")
  }

  /** The members of two lists one after the other read as the first list's names, ", ",
      and the second's: with the one-member case, this fixes every member cell. */
  lemma FormatMembersConcat(a: seq<Member>, b: seq<Member>)
    requires |a| > 0 && |b| > 0
    ensures FormatMembers(a + b) == FormatMembers(a) + ", " + FormatMembers(b)
  {
    MapConcat(MemberName, a, b);
    JoinAppend(Map(MemberName, a), Map(MemberName, b), ", ");
  }

  function LabelName(l: Label): string {
    l.name.GetOr(l.color)
  }

  /** `format_labels`: the label names (colours where a label has no name) joined by ", ". */
  function FormatLabels(labels: seq<Label>): (r: string)
    ensures |labels| == 0 ==> r == ""
    ensures |labels| == 1 ==> r == LabelName(labels[0])
  {
    if |labels| == 0 then "" else Join(Map(LabelName, labels), ", ")
  }

  /** The labels of two lists one after the other read as the first list's names, ", ",
      and the second's. */
  lemma FormatLabelsConcat(a: seq<Label>, b: seq<Label>)
    requires |a| > 0 && |b| > 0
    ensures FormatLabels(a + b) == FormatLabels(a) + ", " + FormatLabels(b)
  {
    MapConcat(LabelName, a, b);
    JoinAppend(Map(LabelName, a), Map(LabelName, b), ", ");
  }

  // ---------------------------------------------------------------- plugin data

  const CardSizePluginId := "5cd476e1efce1d2e0cbe53a8"
  const CardPriorityPluginId := "5d40dbf16b5f44535df106d1"

  /** `parsed.get(k)` */
  function Lookup(m: map<string, Json>, k: string): Json {
    if k in m then m[k] else JNull
  }

  /** `parsed.get('size') or parsed.get('points') or parsed.get('estimate')` */
  function SizeValue(m: map<string, Json>): (v: Json)
    ensures Truthy(Lookup(m, "size")) ==> v == Lookup(m, "size")
    ensures !Truthy(Lookup(m, "size")) && Truthy(Lookup(m, "points")) ==> v == Lookup(m, "points")
    ensures !Truthy(Lookup(m, "size")) && !Truthy(Lookup(m, "points")) ==> v == Lookup(m, "estimate")
  {
    var size := Lookup(m, "size");
    var points := Lookup(m, "points");
    if Truthy(size) then size else if Truthy(points) then points else Lookup(m, "estimate")
  }

  /** The story points one plugin entry yields, or None when the source moves on to the
      next entry (wrong plugin, no usable value, or a conversion that raises). */
  function EntryStoryPoints(e: PluginEntry): (r: Option<int>)
    ensures r.Some? ==> e.idPlugin == Some(CardSizePluginId) && e.value.Some?
                        && SizeValue(e.value.value) != JNull && ToInt(SizeValue(e.value.value)) == r
  {
    if e.idPlugin == Some(CardSizePluginId) && e.value.Some? then
      var size := SizeValue(e.value.value);
      if size != JNull then ToInt(size) else None
    else None
  }

  /** `get_card_story_points` over already-fetched plugin data: the points of the first
      card-size entry that yields any. It never raises; None means no entry did. */
  function CardStoryPoints(pluginData: seq<PluginEntry>): (r: Option<int>)
    ensures r.None? <==> forall i :: 0 <= i < |pluginData| ==> EntryStoryPoints(pluginData[i]).None?
    ensures r.Some? ==> exists k :: 0 <= k < |pluginData|
                          && pluginData[k].idPlugin == Some(CardSizePluginId)
                          && EntryStoryPoints(pluginData[k]) == r
                          && forall j :: 0 <= j < k ==> EntryStoryPoints(pluginData[j]).None?
  {
    FirstSome(EntryStoryPoints, pluginData)
  }

  /** The falsy-but-present estimate is still converted: `0 or 0 or 0` is 0, not None. */
  lemma ZeroEstimateCounts(id: Option<string>)
    requires id == Some(CardSizePluginId)
    ensures CardStoryPoints([PluginEntry(id, Some(map["estimate" := JInt(0)]))]) == Some(0)
  {
    var e := PluginEntry(id, Some(map["estimate" := JInt(0)]));
    assert EntryStoryPoints(e) == Some(0);
  }

  lemma UnconvertibleSizeSkipped(bad: PluginEntry)
    requires bad.idPlugin == Some(CardSizePluginId) && bad.value == Some(map["size" := JStr("abc")])
    ensures EntryStoryPoints(bad) == None
  {
    StripTrimmed("abc");
    assert SizeValue(bad.value.value) == JStr("abc");
    assert !IsDigit(Strip("abc")[0]) && Strip("abc")[0] !in "_+-";
  }

  lemma PointsUsedWithoutSize(good: PluginEntry, n: int)
    requires good.idPlugin == Some(CardSizePluginId) && good.value == Some(map["points" := JInt(n)])
    requires n != 0
    ensures EntryStoryPoints(good) == Some(n)
  {
    assert Lookup(good.value.value, "size") == JNull;
    assert SizeValue(good.value.value) == JInt(n);
  }

  /** A value that does not convert makes the source try the next entry. */
  lemma BadEntrySkipped(bad: PluginEntry, good: PluginEntry, n: int)
    requires bad.idPlugin == Some(CardSizePluginId) && bad.value == Some(map["size" := JStr("abc")])
    requires good.idPlugin == Some(CardSizePluginId) && good.value == Some(map["points" := JInt(n)])
    requires n != 0
    ensures CardStoryPoints([bad, good]) == Some(n)
  {
    UnconvertibleSizeSkipped(bad);
    PointsUsedWithoutSize(good, n);
    FirstSomeStep(EntryStoryPoints, [bad, good]);
    assert [bad, good][1..] == [good];
    FirstSomeStep(EntryStoryPoints, [good]);
  }

  /** The priority text one plugin entry yields: `str(parsed.get('priority'))` when that
      value is truthy. */
  function EntryPriority(e: PluginEntry): (r: Option<string>)
    ensures r.Some? ==> e.idPlugin == Some(CardPriorityPluginId) && e.value.Some?
                        && Truthy(Lookup(e.value.value, "priority"))
                        && r.value == ToStr(Lookup(e.value.value, "priority"))
  {
    if e.idPlugin == Some(CardPriorityPluginId) && e.value.Some? then
      var p := Lookup(e.value.value, "priority");
      if Truthy(p) then Some(ToStr(p)) else None
    else None
  }

  /** `get_card_priority` over already-fetched plugin data. */
  function CardPriority(pluginData: seq<PluginEntry>): (r: Option<string>)
    ensures r.None? <==> forall i :: 0 <= i < |pluginData| ==> EntryPriority(pluginData[i]).None?
    ensures r.Some? ==> exists k :: 0 <= k < |pluginData|
                          && pluginData[k].idPlugin == Some(CardPriorityPluginId)
                          && EntryPriority(pluginData[k]) == r
                          && forall j :: 0 <= j < k ==> EntryPriority(pluginData[j]).None?
  {
    FirstSome(EntryPriority, pluginData)
  }

  const PriorityTable: map<string, string> :=
    map["1" := "Highest", "2" := "Critical", "3" := "High", "4" := "Medium", "5" := "Low"]

  /** `map_trello_priority_to_youtrack` */
  function MapPriority(p: string): (r: string)
    ensures p == "1" ==> r == "Highest"
    ensures p == "2" ==> r == "Critical"
    ensures p == "3" ==> r == "High"
    ensures p == "4" ==> r == "Medium"
    ensures p == "5" ==> r == "Low"
    ensures p !in {"1", "2", "3", "4", "5"} ==> r == "Medium"
  {
    if p in PriorityTable then PriorityTable[p] else "Medium"
  }

  /** The destination priority name a card's plugin data yields, "" when none. */
  function RowPriority(pluginData: seq<PluginEntry>): (r: string)
    ensures r == "" <==> CardPriority(pluginData).None?
    ensures r != "" ==> r in {"Highest", "Critical", "High", "Medium", "Low"}
  {
    match CardPriority(pluginData)
    case Some(t) => if t != "" then MapPriority(t) else ""
    case None => ""
  }
}
