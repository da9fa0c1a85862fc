/** The flat record a card becomes between export and import: column name to text, as
    the importer receives it from `csv.DictReader`. */
module CardRow {

  type Row = map<string, string>

  const BoardColumn := "Board"
  const ListColumn := "List"
  const CardIdColumn := "Card ID"
  const CardNameColumn := "Card Name"
  const DescriptionColumn := "Description"
  const DueDateColumn := "Due Date"
  const DueCompleteColumn := "Due Complete"
  const LabelsColumn := "Labels"
  const PriorityColumn := "Priority"
  const StoryPointsColumn := "Story Points"
  const MembersColumn := "Members"
  const MemberEmailsColumn := "Member Emails"
  const MemberUsernamesColumn := "Member Usernames"
  const UrlColumn := "URL"
  const ArchivedColumn := "Archived"
  const AttachmentsColumn := "Attachments"
  const ChecklistsColumn := "Checklists"
  const CommentsColumn := "Comments"
  const GitHubPRsColumn := "GitHub PRs"
  const GitHubIssuesColumn := "GitHub Issues"
  const GitHubCommitsColumn := "GitHub Commits"
  const GoogleDriveFilesColumn := "Google Drive Files"
  const OtherLinksColumn := "Other Links"

  /** The literal that separates one card's comments inside the Comments column. */
  const CommentSeparator := "\n---\n"

  /** `row.get(k)` as the importer tests it: a missing column reads like an empty one. */
  function Field(row: Row, k: string): string {
    if k in row then row[k] else ""
  }
}
