/** The three tables of the SQLite database and the constraints their
    schema declares: NOT NULL columns, the UNIQUE `reddit_id` of posts,
    column defaults, AUTOINCREMENT ids and the CHECK on response types.
    Each insert either resolves with `{lastID, changes}` or rejects with the
    constraint it violates, as `runAsync` does. */
module Database {
  import opened Basics

  /** Why the engine rejected a statement. */
  datatype DbError = NotNullViolation(column: string) | UniqueViolation(column: string)
                   | CheckViolation(column: string) | EngineFault

  /** What `runAsync` resolves with. */
  datatype RunInfo = RunInfo(lastID: nat, changes: nat)

  /** `runAsync`: the statement callback's error rejects the promise,
      otherwise it resolves with the statement's `lastID` and `changes`. */
  function Settle(err: Option<DbError>, lastID: nat, changes: nat): (r: Result<RunInfo, DbError>)
    ensures r.Success? <==> err.None?
    ensures r.Success? ==> r.value.lastID == lastID && r.value.changes == changes
    ensures r.Failure? ==> r.error == err.value
  {
    match err
    case None => Success(RunInfo(lastID, changes))
    case Some(e) => Failure(e)
  }

  // ---------------------------------------------------------------- posts

  /** A stored post.  Columns declared NOT NULL are plain values; nullable
      columns are options. */
  datatype PostRow = PostRow(
    id: nat,
    campaignId: Option<nat>,
    redditId: string,
    title: string,
    content: Option<string>,
    author: string,
    subreddit: string,
    url: string,
    relevanceScore: int,
    createdAt: int,
    redditCreatedAt: Option<int>)

  /** The values an INSERT binds; `None` binds NULL, except in
      `relevanceScore`, where `None` leaves the column out of the insert so
      that its default applies.  A NULL bound to `relevance_score` is not
      modelled: the scanner always binds a score. */
  datatype NewPost = NewPost(
    campaignId: Option<nat>,
    redditId: Option<string>,
    title: Option<string>,
    content: Option<string>,
    author: Option<string>,
    subreddit: Option<string>,
    url: Option<string>,
    relevanceScore: Option<int>,
    redditCreatedAt: Option<int>)

  /** The posts table, keyed by the UNIQUE `reddit_id`, with the next
      AUTOINCREMENT id. */
  datatype PostTable = PostTable(rows: map<string, PostRow>, nextId: nat) {
    /** Every row sits under its own `reddit_id`, and row ids are distinct,
        positive and below the next id to hand out. */
    ghost predicate Valid() {
      && nextId >= 1
      && (forall k :: k in rows ==> rows[k].redditId == k && 1 <= rows[k].id < nextId)
      && (forall k1, k2 :: k1 in rows && k2 in rows && k1 != k2 ==> rows[k1].id != rows[k2].id)
    }
  }

  /** A freshly created, empty posts table. */
  function EmptyPosts(): (t: PostTable)
    ensures t.Valid() && |t.rows| == 0
  {
    PostTable(map[], 1)
  }

  /** The relevance score a post row gets when none is bound. */
  const DefaultRelevance: int := 0

  /** The first NOT NULL column a new post leaves NULL, if any. */
  function MissingPostColumn(p: NewPost): Option<string> {
    if p.redditId.None? then Some("reddit_id")
    else if p.title.None? then Some("title")
    else if p.author.None? then Some("author")
    else if p.subreddit.None? then Some("subreddit")
    else if p.url.None? then Some("url")
    else None
  }

  /** An insert the constraints accept. */
  predicate Admissible(t: PostTable, p: NewPost) {
    MissingPostColumn(p).None? && p.redditId.value !in t.rows
  }

  /** The row an admissible insert adds, at time `now`. */
  function RowFor(t: PostTable, p: NewPost, now: int): PostRow
    requires MissingPostColumn(p).None?
  {
    PostRow(t.nextId, p.campaignId, p.redditId.value, p.title.value, p.content, p.author.value,
            p.subreddit.value, p.url.value, p.relevanceScore.GetOr(DefaultRelevance), now, p.redditCreatedAt)
  }

  /** What the inserted row holds: the next AUTOINCREMENT id, every bound
      value as bound (NULLs kept in the nullable columns), the column
      DEFAULT 0 for an omitted score, and `now` as `created_at`. */
  lemma RowForHoldsBoundValues(t: PostTable, p: NewPost, now: int)
    requires MissingPostColumn(p).None?
    ensures var row := RowFor(t, p, now);
      && row.id == t.nextId && row.createdAt == now
      && p.redditId == Some(row.redditId) && p.title == Some(row.title) && p.author == Some(row.author)
      && p.subreddit == Some(row.subreddit) && p.url == Some(row.url)
      && row.campaignId == p.campaignId && row.content == p.content && row.redditCreatedAt == p.redditCreatedAt
      && row.relevanceScore == if p.relevanceScore.Some? then p.relevanceScore.value else DefaultRelevance
  {
  }

  /** Adds an admissible post: one new row, nothing else changes. */
  function StorePost(t: PostTable, p: NewPost, now: int): (t': PostTable)
    requires Admissible(t, p)
    ensures t'.rows == t.rows[p.redditId.value := RowFor(t, p, now)]
    ensures t'.nextId == t.nextId + 1
    ensures t.Valid() ==> t'.Valid()
  {
    PostTable(t.rows[p.redditId.value := RowFor(t, p, now)], t.nextId + 1)
  }

  /** The constraint an insert of `p` would violate, if any. */
  function PostConstraintError(t: PostTable, p: NewPost): (e: Option<DbError>)
    ensures e.None? <==> Admissible(t, p)
  {
    match MissingPostColumn(p)
    case Some(column) => Some(NotNullViolation(column))
    case None => if p.redditId.value in t.rows then Some(UniqueViolation("reddit_id")) else None
  }

  /** `INSERT INTO posts …` through `runAsync`: rejected with NOT NULL for a
      missing required column, with UNIQUE for a known `reddit_id`, and
      otherwise resolved with the new row's id and one change. */
  function InsertPost(t: PostTable, p: NewPost, now: int): (r: Result<(PostTable, RunInfo), DbError>)
    ensures r.Success? <==> Admissible(t, p)
    ensures MissingPostColumn(p).Some? ==> r == Failure(NotNullViolation(MissingPostColumn(p).value))
    ensures MissingPostColumn(p).None? && p.redditId.value in t.rows ==> r == Failure(UniqueViolation("reddit_id"))
    ensures r.Success? ==>
      && r.value.1 == RunInfo(t.nextId, 1)
      && r.value.0.rows.Keys == t.rows.Keys + {p.redditId.value}
      && (forall k :: k in t.rows ==> r.value.0.rows[k] == t.rows[k])
      && r.value.0.rows[p.redditId.value].relevanceScore == p.relevanceScore.GetOr(0)
    ensures r.Success? && t.Valid() ==> r.value.0.Valid()
  {
    match Settle(PostConstraintError(t, p), t.nextId, 1)
    case Failure(e) => Failure(e)
    case Success(info) => Success((StorePost(t, p, now), info))
  }

  /** A second insert of the same `reddit_id` is rejected and stores
      nothing more: ingestion is idempotent on the Reddit id. */
  lemma InsertTwiceKeepsOneRow(t: PostTable, p: NewPost, q: NewPost, now: int, later: int)
    requires InsertPost(t, p, now).Success?
    requires q.redditId == p.redditId
    ensures InsertPost(InsertPost(t, p, now).value.0, q, later).Failure?
  {
  }

  /** Two admissible inserts with different Reddit ids into an empty table
      leave exactly their two rows. */
  lemma StoreTwo(p: NewPost, q: NewPost, at1: int, at2: int)
    requires MissingPostColumn(p).None? && MissingPostColumn(q).None?
    requires p.redditId.value != q.redditId.value
    ensures var t := StorePost(StorePost(EmptyPosts(), p, at1), q, at2);
      && t.rows.Keys == {p.redditId.value, q.redditId.value}
      && t.rows[p.redditId.value].relevanceScore == p.relevanceScore.GetOr(DefaultRelevance)
      && t.rows[q.redditId.value].relevanceScore == q.relevanceScore.GetOr(DefaultRelevance)
  {
    var t1 := StorePost(EmptyPosts(), p, at1);
    assert t1.rows.Keys == {p.redditId.value};
  }

  // ------------------------------------------------------------ responses

  /** The CHECK-constrained response type. */
  datatype ResponseType = Comment | Dm

  /** The CHECK constraint `type IN ('comment', 'dm')`. */
  function ParseResponseType(s: string): (t: Option<ResponseType>)
    ensures t == Some(Comment) <==> s == "comment"
    ensures t == Some(Dm) <==> s == "dm"
    ensures t.None? <==> s != "comment" && s != "dm"
  {
    if s == "comment" then Some(Comment) else if s == "dm" then Some(Dm) else None
  }

  datatype ResponseRow = ResponseRow(id: nat, postId: Option<nat>, kind: ResponseType, content: string, createdAt: int)

  /** The responses table; it has no uniqueness beyond its own id, so an
      `INSERT OR REPLACE` always appends. */
  datatype ResponseTable = ResponseTable(rows: seq<ResponseRow>, nextId: nat)

  /** `INSERT OR REPLACE INTO responses (post_id, type, content)`: rejected
      when the type fails the CHECK or the content is NULL, and otherwise
      one row is appended. */
  function InsertResponse(t: ResponseTable, postId: Option<nat>, responseType: string,
                          content: Option<string>, now: int): (r: Result<(ResponseTable, RunInfo), DbError>)
    ensures r.Success? <==> (responseType == "comment" || responseType == "dm") && content.Some?
    ensures r.Success? ==>
      && |r.value.0.rows| == |t.rows| + 1
      && r.value.0.rows[..|t.rows|] == t.rows
      && r.value.0.rows[|t.rows|].postId == postId
      && r.value.0.rows[|t.rows|].content == content.value
      && (r.value.0.rows[|t.rows|].kind == Dm <==> responseType == "dm")
      && r.value.1 == RunInfo(t.nextId, 1)
  {
    match ParseResponseType(responseType)
    case None => Failure(CheckViolation("type"))
    case Some(kind) =>
      match content
      case None => Failure(NotNullViolation("content"))
      case Some(text) =>
        var row := ResponseRow(t.nextId, postId, kind, text, now);
        Success((ResponseTable(t.rows + [row], t.nextId + 1), RunInfo(t.nextId, 1)))
  }

  // ------------------------------------------------------------ campaigns

  /** A stored campaign; `subreddits` is the JSON text of the list. */
  datatype CampaignRow = CampaignRow(
    id: nat,
    productName: string,
    description: string,
    subreddits: string,
    searchPrompt: Option<string>,
    dmPrompt: Option<string>,
    website: Option<string>,
    createdAt: int,
    updatedAt: int)

  /** A column of an INSERT: left out of the column list (so its default
      applies), or bound to a value that may be NULL. */
  datatype Column = Omitted | Bound(value: Option<string>)

  datatype NewCampaign = NewCampaign(
    productName: Option<string>,
    description: Option<string>,
    subreddits: Option<string>,
    searchPrompt: Column,
    dmPrompt: Column,
    website: Option<string>)

  const DefaultSearchPrompt: string := "Find posts where I can promote my product and find posts that are explicitly asking for advice where my product can directly address the request."
  const DefaultDmPrompt: string := "Write a DM promoting my product. Hi [recipient_first_name], I'm from [product_name]. I saw your post about [post_reference]. [product_description] Check it out: [website]"

  /** A column's stored value: its default when omitted, else what was bound. */
  function WithDefault(c: Column, default: string): (v: Option<string>)
    ensures c.Omitted? ==> v == Some(default)
    ensures c.Bound? ==> v == c.value
  {
    match c
    case Omitted => Some(default)
    case Bound(v) => v
  }

  datatype CampaignTable = CampaignTable(rows: seq<CampaignRow>, nextId: nat)

  /** `INSERT INTO campaigns …`: product name, description and subreddits
      must not be NULL; the prompts default only when omitted. */
  function InsertCampaign(t: CampaignTable, c: NewCampaign, now: int): (r: Result<(CampaignTable, RunInfo), DbError>)
    ensures r.Success? <==> c.productName.Some? && c.description.Some? && c.subreddits.Some?
    ensures r.Success? ==>
      && |r.value.0.rows| == |t.rows| + 1
      && r.value.0.rows[..|t.rows|] == t.rows
      && var row := r.value.0.rows[|t.rows|];
         && row.id == t.nextId == r.value.1.lastID
         && row.productName == c.productName.value
         && row.description == c.description.value
         && row.subreddits == c.subreddits.value
         && (c.searchPrompt.Omitted? ==> row.searchPrompt == Some(DefaultSearchPrompt))
         && (c.dmPrompt.Omitted? ==> row.dmPrompt == Some(DefaultDmPrompt))
  {
    if c.productName.None? then Failure(NotNullViolation("product_name"))
    else if c.description.None? then Failure(NotNullViolation("description"))
    else if c.subreddits.None? then Failure(NotNullViolation("subreddits"))
    else
      var row := CampaignRow(t.nextId, c.productName.value, c.description.value, c.subreddits.value,
                             WithDefault(c.searchPrompt, DefaultSearchPrompt),
                             WithDefault(c.dmPrompt, DefaultDmPrompt), c.website, now, now);
      Success((CampaignTable(t.rows + [row], t.nextId + 1), RunInfo(t.nextId, 1)))
  }

  /** `SELECT … WHERE id = ?` on a table's primary key: the first row whose
      id is `id`. */
  function FindById<T>(rows: seq<T>, idOf: T -> nat, id: nat): (r: Option<T>)
    ensures r.Some? <==> exists i :: 0 <= i < |rows| && idOf(rows[i]) == id
    ensures r.Some? ==> r.value in rows && idOf(r.value) == id
  {
    if |rows| == 0 then None
    else if idOf(rows[0]) == id then Some(rows[0])
    else
      var r := FindById(rows[1..], idOf, id);
      assert forall i :: 1 <= i < |rows| ==> rows[i] == rows[1..][i - 1];
      r
  }

  /** The campaign with id `id`. */
  function FindCampaign(rows: seq<CampaignRow>, id: nat): Option<CampaignRow> {
    FindById(rows, (c: CampaignRow) => c.id, id)
  }
}
