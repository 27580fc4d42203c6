/** The rows of the four tables, column for column, with the primary-key
    column of each. Column types are left as the JSON values bound to them. */
module Schema {
  import opened Json

  /** A row of `submissions`; the last two columns are derived at import. */
  datatype SubmissionRow = SubmissionRow(
    id: Value, subreddit: Value, title: Value, selftext: Value, author: Value,
    createdUtc: Value, score: Value, numComments: Value, isSelf: Value,
    retrievedOn: Value, stickied: Value, over18: Value, spoiler: Value,
    locked: Value, distinguished: Value, permalink: Value,
    hasImage: bool, imageUrl: Value)

  /** A row of `comments`; `linkId` is always a string after prefix removal. */
  datatype CommentRow = CommentRow(
    id: Value, subreddit: Value, body: Value, author: Value, createdUtc: Value,
    score: Value, linkId: string, parentId: Value, retrievedOn: Value,
    stickied: Value, distinguished: Value, controversiality: Value)

  /** A row of `reddit_users`: a resolved profile. */
  datatype UserRow = UserRow(
    id: Value, username: Value, createdUtc: Value, commentKarma: Value,
    linkKarma: Value, isMod: Value, isSuspended: Value, profileName: Value,
    profileDescription: Value, retrievedOn: int)

  /** A row of `reddit_users_failed`: a tombstone for a name that did not resolve. */
  datatype FailedRow = FailedRow(username: Value, reason: string, retrievedOn: int)

  /** Primary keys: `submissions.id`, `comments.id`, `reddit_users.id`,
      `reddit_users_failed.username`. */
  function SubmissionKey(r: SubmissionRow): Value { r.id }
  function CommentKey(r: CommentRow): Value { r.id }
  function UserKey(r: UserRow): Value { r.id }
  function FailedKey(r: FailedRow): Value { r.username }

  /** The columns read back by the enrichment step. */
  function SubmissionAuthor(r: SubmissionRow): Value { r.author }
  function CommentAuthor(r: CommentRow): Value { r.author }
  function UserName(r: UserRow): Value { r.username }
  function FailedName(r: FailedRow): Value { r.username }
}
