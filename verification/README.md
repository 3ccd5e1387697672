# Reddit Alerts — a Dafny model of the scan-and-store core

Reddit Alerts finds sales leads on Reddit. A user creates a *campaign*: a
product, its description and a list of subreddits. Every five minutes a
server-side scanner goes through every campaign and every subreddit in it.
It fetches the newest 25 posts of each subreddit and skips posts that are
already stored. It asks a language model to score each remaining post from
0 to 100, and stores only posts scoring above 30. A browser dashboard lists
the stored posts, filtered and ordered by relevance. From the dashboard the
user can also have the model draft a comment or a direct message. A separate
similarity service (the "RAG" client) can filter posts by vector similarity.

The model is functional. Each external effect becomes an input that says how
the effect turned out:

- the Reddit listing of a subreddit;
- the language model's answer;
- the similarity service's HTTP reply;
- a database fault;
- the JSON decoding of a campaign's subreddit list.

Everything else is a pure function over immutable data.

In the scanner these outcomes are inputs keyed by what they concern, and
they stay fixed for a whole sweep: the listing by subreddit name, the
existence-check and insert faults by post id, the model's answer by campaign
and post, and the insert time by row id. So two campaigns that watch the same
subreddit see the same listing, and a fault on a post recurs for every
campaign that meets that post.

| file | module | what it models |
|---|---|---|
| `basics.dfy` | `Basics` | `Option` and `Result` |
| `text.dfy` | `Text` | JavaScript white space, `trim`, ASCII `toLowerCase`, `includes`, `String(n)` |
| `parse_int.dfy` | `JsParseInt` | `parseInt` without a radix, section 19.2.5 of ECMA-262, hex prefix included |
| `database.dfy` | `Database` | the three SQLite tables and their NOT NULL, UNIQUE, CHECK and DEFAULT constraints; `runAsync` |
| `ai_service.dfy` | `AiService` | relevance scoring and response generation |
| `rag_service.dfy` | `RagService` | the similarity-service client: identifiers and result decisions |
| `reddit_scanner.dfy` | `RedditScanner` | the scan as a fold over campaigns, subreddits and posts into the post store, and the `isScanning` guard |
| `sorting.dfy` | `Sorting` | filtering and descending two-key ordering, as `WHERE … ORDER BY` |
| `reddit_routes.dfy` | `RedditRoutes` | the posts listing, the subreddit summary and the response route |
| `api_client.dfy` | `ApiClient` | `request`, the `getPosts` query string, and the server reading it back |
| `onboarding.dfy` | `Onboarding` | subreddit suggestions, toggling, and the step and submit guards |
| `app.dfy` | `App` | loading, creating and deleting campaigns, and the current campaign |
| `dashboard.dfy` | `Dashboard` | the last-campaign guard, the filter object, auto-selection and the 30-second refresh, stored settings |
| `post_list.dfy` | `PostList` | the relevance badge bands and the content preview |

The post store is a map keyed by `reddit_id`, which the schema declares
UNIQUE. Its ghost invariant `Valid` says three things:

- every row sits under its own `reddit_id`;
- row ids are distinct and positive;
- row ids are below the next id to hand out.

The scan only ever grows the store (`Grows`): no row is changed or removed.

Four facts about the scanner's code shape the model:

- the scanner keeps no watermark and does no pagination, only one request of
  25 posts per subreddit;
- the scanner never calls the similarity service;
- a failed scoring call never cuts a subreddit short: the scoring function
  catches it and returns 0, so the post is simply not stored. Only a failed
  fetch, existence check or insert ends a subreddit early;
- posts scoring 30 or less leave no row, so they are scored again on the next
  scan. In the three-post example (answers 80, 10 and 95) a first scan
  therefore stores two rows, for posts `a` and `c`.

## Model

| member | source | states |
|---|---|---|
| RedditScanner.ScoreOf | server/services/aiService.js:39-44 | the score the scanner acts on always lies in [0, 100] |
| RedditScanner.Next | server/services/redditScanner.js:60-97 | after one post without error, the post is in the store iff it was already there or it scores above 30; only that post can be added, with the scanner's row for it, and the store only grows |
| RedditScanner.StoreGrows | server/services/redditScanner.js:79-91 | the scanner's insert adds exactly the new post's key and changes no existing row |
| RedditScanner.StoredRowRecords | server/services/redditScanner.js:79-91 | the row inserted for a new post holds the campaign id, the post's fields, the permalink url, its score and its own insert time |
| RedditScanner.ScanPage | server/services/redditScanner.js:60-97 | scanning a subreddit's posts only adds rows and keeps the store's invariant |
| RedditScanner.PageStep | server/services/redditScanner.js:60-97 | a post that causes no fault is scored only when not already stored, and the rest of the page is scanned from the store it leaves |
| RedditScanner.PageAddsOnlyQualifyingRows | server/services/redditScanner.js:76-93 | every row a page adds belongs to one of its posts and carries the campaign id, the Reddit fields, `https://reddit.com` + permalink, the post's own score, which exceeds 30, and the clock's time at its own insert; every added row has an id above those of the rows already stored |
| RedditScanner.PageJudgesOnlyUnstoredPosts | server/services/redditScanner.js:61-74 | only posts of the page that were not already stored, by any campaign, are sent to the model |
| RedditScanner.PageStoresEveryQualifyingPost | server/services/redditScanner.js:76-96 | a page scan that no error cut short has stored every new post scoring above 30 |
| RedditScanner.PageAbandonsOnlyOnFault | server/services/redditScanner.js:60-105 | a page is cut short only by a failed existence check or a failed insert |
| RedditScanner.PageStoresExactlyQualifyingPosts | server/services/redditScanner.js:60-97 | without faults, the rows added are exactly the page's new posts that score above 30 |
| RedditScanner.PageSplit | server/services/redditScanner.js:60-105 | an error abandons exactly the posts after it: scanning `a + b` is scanning `a` and then, unless `a` was cut short, `b` |
| RedditScanner.Newest | server/services/redditScanner.js:56 | the scanner looks at a prefix of the listing of at most 25 posts, all of them when there are fewer |
| RedditScanner.ScanSubreddit | server/services/redditScanner.js:54-105 | one subreddit only adds rows of this campaign with scores in (30, 100], inserted after the rows already stored and stamped at their own insert; a failed fetch changes nothing and scores nothing |
| RedditScanner.SubredditJudgesOnlyNewestUnstored | server/services/redditScanner.js:55-74 | only posts among the first 25 of the listing, and not yet stored, are scored |
| RedditScanner.ScanSubreddits | server/services/redditScanner.js:53-106 | the subreddit loop only adds rows, each for this campaign with a score in (30, 100] |
| RedditScanner.SubredditsSplit | server/services/redditScanner.js:53-106 | the subreddits are scanned in order, each from the store the previous one left |
| RedditScanner.LaterSubredditsStillScanned | server/services/redditScanner.js:53-106 | whatever happens inside one subreddit, the subreddits after it are still scanned |
| RedditScanner.FailedFetchIsSkipped | server/services/redditScanner.js:54-56 | a subreddit whose fetch fails is the same as a subreddit not in the list |
| RedditScanner.ScanCampaign | server/services/redditScanner.js:46-110 | a campaign whose Reddit client or subreddit list fails changes nothing; otherwise only this campaign's qualifying rows are added |
| RedditScanner.CampaignIsItsSubreddits | server/services/redditScanner.js:46-53 | once the client is built and the list decodes, a campaign's scan is the scan of its subreddits |
| RedditScanner.ScanCampaigns | server/services/redditScanner.js:36-38 | the campaign loop only adds rows, each made by a sweep of one of the campaigns |
| RedditScanner.CampaignsSplit | server/services/redditScanner.js:36-38 | campaigns are scanned in order, each from the store the previous one left |
| RedditScanner.FailedCampaignIsSkipped | server/services/redditScanner.js:46-110 | a campaign whose subreddit list cannot be decoded is the same as a campaign not in the list; later campaigns are still scanned |
| RedditScanner.ScanAll | server/services/redditScanner.js:32-44 | a failed campaign load changes nothing; every added row has a score in (30, 100], an id above those of the rows already stored, and the clock's time at its own insert |
| RedditScanner.SweepStampsFollowInsertionOrder | server/database.js:43-52 | the rows a sweep adds come after every earlier row, and on a clock that never runs back their `created_at` stamps do not decrease in insertion order |
| RedditScanner.ScanCampaignNow | server/services/redditScanner.js:112-124 | the result is true iff the lookup succeeds and finds the campaign, whatever the scan then does; false leaves the store alone; new rows belong to that campaign |
| RedditScanner.BeginTick | server/services/redditScanner.js:13-19 | a tick runs iff no scan is in progress; a skipped tick changes nothing; a running one sets the flag |
| RedditScanner.EndTick | server/services/redditScanner.js:23-25 | after a tick that ran, the flag is clear again |
| RedditScanner.Tick | server/services/redditScanner.js:12-26 | a tick during a scan changes nothing; any other tick leaves the flag clear, only grows the store and keeps its invariant |
| RedditScanner.OverlappingTickIsSkipped | server/services/redditScanner.js:13-25 | a tick arriving during another tick's scan does nothing, and the flag is clear once that scan ends |
| RedditScanner.PageOfOneKept | server/services/redditScanner.js:76-93 | a new post scoring above 30 is stored |
| RedditScanner.PageOfOneDropped | server/services/redditScanner.js:76-77 | a new post scoring 30 or less leaves no row |
| RedditScanner.KeepFirstOfTwo | server/services/redditScanner.js:60-97 | of a qualifying and a non-qualifying post, only the first is stored |
| RedditScanner.KeepOnly | server/services/redditScanner.js:60-97 | a subreddit listing one qualifying post stores it |
| RedditScanner.TwoSubreddits | server/services/redditScanner.js:53-106 | two subreddits are scanned one after the other |
| RedditScanner.TwoSubredditsTable | server/services/redditScanner.js:53-106 | from any store holding none of the posts, the store after two subreddits is the qualifying posts stored in listing order, stamped at the first and the second insert |
| RedditScanner.TwoSubredditsKeepQualifying | server/services/redditScanner.js:53-106 | from an empty store, exactly the two qualifying posts are kept, with their scores |
| RedditScanner.ScenarioStoresOnlyQualifying | server/services/redditScanner.js:53-97 | with answers "80", "10" and "95", posts `a` and `c` are stored with scores 80 and 95, and `b` is not |
| AiService.Clamp | server/services/aiService.js:40 | the result lies in [0, 100], equals an in-range value, and is 100 above and 0 below the range |
| AiService.RelevanceScore | server/services/aiService.js:39-44 | the score always lies in [0, 100]; a failed call or null content scores 0; otherwise NaN scores 0 and a number scores its clamp |
| AiService.ScoreOfLeadingNumber | server/services/aiService.js:39-40 | a decimal number followed by text that does not continue it scores that number, clamped |
| AiService.ScoreOfNumber | server/services/aiService.js:39-40 | every decimal answer in [0, 100] scores exactly itself |
| AiService.ScoreAboveRange | server/services/aiService.js:40 | "150" scores 100 |
| AiService.ScoreOfNegative | server/services/aiService.js:39-40 | a negative decimal answer scores 0 |
| AiService.ScoreBelowRange | server/services/aiService.js:40 | "-10" scores 0 |
| AiService.ScoreOfNonNumber | server/services/aiService.js:39-40 | an answer starting with a character that is not white space, a sign or a digit scores 0 |
| AiService.ScoreOfWord | server/services/aiService.js:39-40 | "abc" scores 0 |
| AiService.ScoreIgnoresTrailingText | server/services/aiService.js:39-40 | "85%" scores 85 |
| AiService.ScoreOfTwoDigits | server/services/aiService.js:39-40 | a two-digit answer scores its value |
| AiService.ScoreOfHexAnswer | server/services/aiService.js:39 | without a radix a `0x` prefix reads hexadecimal: "0x1F" scores 31 |
| AiService.PromptFor | server/services/aiService.js:51-94 | the direct-message prompt is used iff the type is exactly "dm" |
| AiService.GenerateResponse | server/services/aiService.js:47-108 | an answer is returned trimmed; any failure returns the fixed DM text for "dm" and the fixed comment text otherwise |
| AiService.GeneratedTextIsTrimmed | server/services/aiService.js:103-106 | whichever branch answers, the returned text has no white space at either end |
| AiService.FallbackIsTrimmed | server/services/aiService.js:106 | both fixed fallback texts are their own trim |
| AiService.OtherTypesAreComments | server/services/aiService.js:51-106 | every type other than "dm" behaves exactly like "comment" |
| JsParseInt.DigitRun | server/services/aiService.js:39 | the digit run read is the longest prefix of digits |
| JsParseInt.ParseMagnitude | server/services/aiService.js:39 | the unsigned part never reads a negative value |
| JsParseInt.ParseIntNaN | server/services/aiService.js:39-40 | `parseInt` gives NaN iff no digit follows the optional sign, or the hex prefix |
| JsParseInt.ParseInt | server/services/aiService.js:39 | the result is NaN iff no digit follows the optional sign (after a `0x` prefix, no hex digit follows it); a negative result needs a minus sign after the leading white space |
| JsParseInt.DigitsValueOfShowNat | server/services/aiService.js:39 | reading back the decimal digits of `n` gives `n` |
| JsParseInt.DecimalPrefix | server/services/aiService.js:39 | a decimal digit run is read up to the first non-digit; trailing text is ignored |
| JsParseInt.ParseShowNat | server/services/aiService.js:39 | `parseInt(String(n)) == n` for every natural number |
| JsParseInt.ParseNegative | server/services/aiService.js:39 | a minus sign before the digits negates their value |
| JsParseInt.ParseShowInt | server/services/aiService.js:39 | `parseInt(String(i)) == i` for every integer |
| JsParseInt.ShowNatInjective | server/services/ragService.js:23 | different numbers have different decimal renderings |
| Text.TrimStart | server/services/aiService.js:39 | the result is a suffix that does not start with white space, and only white space was removed |
| Text.TrimEnd | server/services/aiService.js:39 | the result is a prefix that does not end with white space, and only white space was removed |
| Text.TrimIdempotent | server/services/aiService.js:103 | trimming a trimmed text changes nothing |
| Text.TrimEndsVisible | server/services/aiService.js:103 | what `trim` leaves is no longer than its input, starts and ends with a visible character unless empty, and has nothing left to trim at either end |
| Text.LowerAscii | src/components/Onboarding.jsx:23 | same length; ASCII capitals become small letters and every other character is kept |
| Text.IncludesAt | src/components/Onboarding.jsx:25 | `includes` holds iff the needle occurs at some position |
| Text.LowerAsciiIdempotent | src/components/Onboarding.jsx:23 | lower-casing twice is lower-casing once |
| Text.ShowNat | server/services/ragService.js:23 | the rendering is non-empty, all decimal digits, with no leading zero |
| RagService.CollectionNameInjective | server/services/ragService.js:23 | distinct campaigns never share a collection |
| RagService.CollectionName | server/services/ragService.js:23 | the collection name is `campaign_` and then decimal digits that read back as the campaign id |
| RagService.PostDocumentId | server/services/ragService.js:24 | a post document id is `post_`, the post id, `_`, then digits that read back as the embedding time |
| RagService.SeedDocumentId | server/services/ragService.js:195 | a seed document id is `seed_` and then digits that read back as the campaign id, with no time in it |
| RagService.SeedAndPostIdsDiffer | server/services/ragService.js:195 | a seed document id never equals a post document id |
| RagService.RequestsTargetTheirCampaign | server/services/ragService.js:23 | every operation addresses the collection read back as its own campaign id |
| RagService.MessageOr | server/services/ragService.js:70 | an absent or empty service message is replaced by the fallback text |
| RagService.EmbedPost | server/services/ragService.js:21-76 | a document id is returned iff the reply is OK and reports success, and it is `post_<id>_<time>`; a non-OK status is an error with that status |
| RagService.MaxScore | server/services/ragService.js:124 | the maximum is one of the scores and no score exceeds it |
| RagService.QueryAndFilter | server/services/ragService.js:87-147 | with matches: similarity is their maximum and the post is processed iff it reaches the threshold (default 0.6); otherwise the post is processed; an empty or unsuccessful reply succeeds with similarity 0; a thrown error fails but still processes |
| RagService.QueryForMatching | server/services/ragService.js:261-308 | the same threshold rule with matches; without matches, thrown error included, the post is not processed; a successful reply without matches reports success with similarity 0, no match count and no error, and does not process the post |
| RagService.MatchingIsStricterThanFiltering | server/services/ragService.js:133-141 | the two queries agree when there are matches; otherwise filtering processes and matching does not |
| RagService.Acknowledge | server/services/ragService.js:155-183 | success iff the reply is OK and reports success; the service's message is passed through; `cleanupCampaign` (ragService.js:315-339) applies the same rule |
| RagService.InitializeCampaignWithSeed | server/services/ragService.js:192-251 | seeding succeeds iff the reply is OK and reports success, and the seed id is `seed_<campaignId>` regardless of time |
| RagService.HealthCheck | server/services/ragService.js:348-364 | available iff the probe answers OK with a readable body, and then it reports the body's status |
| Database.Settle | server/database.js:7-17 | `runAsync` resolves with `lastID` and `changes` iff there is no error, and rejects with the error otherwise |
| Database.EmptyPosts | server/database.js:41-55 | a new posts table is valid and empty |
| Database.StorePost | server/database.js:41-55 | an admissible insert adds one row under its `reddit_id`, leaves the others alone and keeps the invariant |
| Database.RowForHoldsBoundValues | server/database.js:41-55 | the inserted row gets the next AUTOINCREMENT id, every bound value as bound (NULL kept in nullable columns), score DEFAULT 0 when none is bound, and the insert time as `created_at` |
| Database.PostConstraintError | server/database.js:45-50 | the insert violates no constraint iff every NOT NULL column is bound and the `reddit_id` is new |
| Database.InsertPost | server/database.js:45-51 | a missing NOT NULL column is rejected as such and a known `reddit_id` as UNIQUE; otherwise exactly one row is added, with a score that defaults to 0 |
| Database.InsertTwiceKeepsOneRow | server/database.js:45 | a second insert with the same `reddit_id` is rejected |
| Database.StoreTwo | server/database.js:45-51 | two inserts with different ids into an empty table leave exactly those two rows, with their scores |
| Database.ParseResponseType | server/database.js:63 | a response type is accepted iff it is "comment" or "dm" |
| Database.InsertResponse | server/database.js:59-67 | a response insert succeeds iff the type passes the CHECK and the content is not NULL, and then appends one row of that type |
| Database.WithDefault | server/database.js:32-33 | an omitted prompt column takes its default; a bound one keeps the bound value |
| Database.InsertCampaign | server/database.js:26-38 | a campaign insert succeeds iff product name, description and subreddits are bound; the new row has the next id and the default prompts when they are omitted |
| Database.FindById | server/routes/reddit.js:46-51 | a row is found iff some row has that primary key, and the row found has it; campaigns and posts are both looked up this way |
| Sorting.Filter | server/routes/reddit.js:19 | the rows kept are exactly those satisfying the condition, with their multiplicities, in their original order |
| Sorting.Insert | server/routes/reddit.js:29 | insertion keeps the order and adds exactly one element |
| Sorting.SortDesc | server/routes/reddit.js:29 | the result is a permutation of the input in descending key order |
| Sorting.PermutationKeepsSum | server/routes/reddit.js:89-95 | reordering does not change a sum |
| Sorting.PermutationKeepsDistinct | server/routes/reddit.js:89-95 | reordering keeps names distinct |
| Sorting.FilterAgrees | server/routes/reddit.js:19-27 | two conditions that agree on every row filter the same rows |
| RedditRoutes.ListPosts | server/routes/reddit.js:9-37 | the listing holds exactly the campaign's rows at or above the floor (0 when absent), restricted to a given non-empty subreddit, with their multiplicities, by relevance and then creation time, descending |
| RedditRoutes.SameFiltersSameListing | server/routes/reddit.js:12-27 | parameters that mean the same floor and subreddit give the same listing |
| RedditRoutes.AbsentFloorIsZero | server/routes/reddit.js:12 | an absent `minRelevance` lists the same as 0 |
| RedditRoutes.EmptySubredditIsNoFilter | server/routes/reddit.js:24-27 | an empty subreddit parameter applies no filter |
| RedditRoutes.HigherFloorListsFewer | server/routes/reddit.js:19 | raising the floor only removes rows |
| RedditRoutes.CampaignPosts | server/routes/reddit.js:92 | exactly the campaign's rows, with their multiplicities |
| RedditRoutes.CountSubreddit | server/routes/reddit.js:90 | the count is positive iff some row is in that subreddit, and never exceeds the number of rows |
| RedditRoutes.Bump | server/routes/reddit.js:90-93 | counting a row raises that subreddit's count and the total by one, and no other count |
| RedditRoutes.BumpKeepsDistinct | server/routes/reddit.js:93 | counting never creates a second entry for a subreddit |
| RedditRoutes.Tally | server/routes/reddit.js:90-93 | one entry per subreddit; the counts equal the rows in each subreddit and sum to the number of rows |
| RedditRoutes.TallyEntries | server/routes/reddit.js:90-93 | every entry's count is its subreddit's row count and at least 1, and every row's subreddit has an entry |
| RedditRoutes.SubredditSummary | server/routes/reddit.js:85-102 | one row per subreddit of the campaign's posts, each with its count; counts sum to the campaign's post count and are in descending order |
| RedditRoutes.PostWithCampaign | server/routes/reddit.js:46-51 | the join succeeds iff the post exists and its campaign exists |
| RedditRoutes.RespondToPost | server/routes/reddit.js:40-82 | a rejected lookup is a 500; a 404 exactly when the lookup answers without the post or its campaign; success iff, besides, the submission is fetched, the type is "comment" or "dm" and the insert does not fail, and then exactly one response row holding the generated text is appended; anything else writes nothing |
| RedditRoutes.UnknownPostIsNotFound | server/routes/reddit.js:53-55 | once the lookup answers, an unknown post id is a 404 and writes nothing, whatever the request |
| RedditRoutes.PostsHandler | server/routes/reddit.js:9-37 | a rejected query is a 500; otherwise the body holds exactly the rows the filter passes, in listing order, and an unknown campaign gets an empty list, never a 404 |
| RedditRoutes.SubredditsHandler | server/routes/reddit.js:85-102 | a rejected query is a 500; otherwise the body has one entry per subreddit, ordered by count, with counts summing to the campaign's posts |
| ApiClient.Url | src/services/api.js:5 | the URL is `/api` followed by the endpoint |
| ApiClient.Request | src/services/api.js:4-24 | data is returned iff the status is 2xx and the body is readable; a non-OK reply is an error carrying the status text |
| ApiClient.EncodeChar | src/services/api.js:67 | an encoded character never contains `&`, `=` or `?` |
| ApiClient.DecodeEncode | src/services/api.js:67 | decoding undoes form encoding |
| ApiClient.FormEncode | src/services/api.js:67 | form encoding never produces `&`, `=` or `?`; each character becomes one to three characters; text of unreserved characters is unchanged |
| ApiClient.SplitAtFirst | src/services/api.js:67 | the text is the part before the first separator, the separator and the rest; no separator means no rest |
| ApiClient.SerializeSplits | src/services/api.js:67 | splitting a serialized query on `&` gives back the encoded pairs |
| ApiClient.EncodePairs | src/services/api.js:67 | one encoded `name=value` piece per parameter, in order |
| ApiClient.Serialize | src/services/api.js:67 | the query string is empty iff there are no parameters, and never contains `?` |
| ApiClient.ParseEncodedPieces | src/services/api.js:67 | parsing the encoded pairs gives the original pairs |
| ApiClient.ParseSerialize | src/services/api.js:67 | parsing a serialized parameter list gives the list back |
| ApiClient.ParseQuery | server/routes/reddit.js:12 | an empty query has no parameters; there are at most as many parameters as `&`-separated pieces; a query without `&` is one parameter |
| ApiClient.QueryParams | src/services/api.js:57-65 | `minRelevance` is sent iff it is given and not 0, the subreddit iff it is given and not empty, and nothing else |
| ApiClient.PostsEndpoint | src/services/api.js:67-68 | the endpoint has a `?` iff there is a parameter; without one it is the bare path |
| ApiClient.Lookup | server/routes/reddit.js:12 | a parameter is found iff some pair has that name, and then that pair is present |
| ApiClient.EndpointCarriesParams | src/services/api.js:56-69 | the server parses back exactly the parameters the client built |
| ApiClient.ServerQuery | server/routes/reddit.js:12 | a path without `?` carries no query parameters |
| ApiClient.FloorSurvives | src/services/api.js:59-61 | the relevance floor arrives intact; an omitted 0 is the server's default 0 |
| ApiClient.RouteMinRelevance | server/routes/reddit.js:12-19 | the floor is absent iff the parameter is absent or `parseInt` finds no digits in it; otherwise it is what `parseInt` reads |
| ApiClient.IntegerFloorIsRead | server/routes/reddit.js:12-19 | a floor written as a decimal integer is read as that integer |
| ApiClient.SubredditSurvives | src/services/api.js:63-65 | a non-empty subreddit arrives intact, and an empty one is not sent |
| ApiClient.ClientAndServerAgree | src/services/api.js:56-69 | the server lists exactly the posts for the client's filters |
| Onboarding.FirstMatch | src/components/Onboarding.jsx:24-28 | the index found is the first entry whose key occurs in the text; none iff no key occurs |
| Onboarding.SuggestedSubreddits | src/components/Onboarding.jsx:22-30 | the suggestions are the list of the first key, in table order, occurring in the lower-cased description, or the `saas` list when none does |
| Onboarding.SuggestionsIgnoreCase | src/components/Onboarding.jsx:23 | a description and its lower-cased form get the same suggestions |
| Onboarding.Remove | src/components/Onboarding.jsx:42 | every occurrence of the item goes and every other element keeps its count |
| Onboarding.RemoveAppend | src/components/Onboarding.jsx:42 | removal keeps the order of the remaining elements |
| Onboarding.Toggle | src/components/Onboarding.jsx:38-45 | the subreddit ends up selected iff it was not; a removal keeps the others; an addition appends at the end |
| Onboarding.ToggleTwiceRestores | src/components/Onboarding.jsx:41-43 | toggling an unselected subreddit twice restores the selection |
| Onboarding.HandleNext | src/components/Onboarding.jsx:32-36 | step 1 moves to step 2 iff the product name and description are both filled in; nothing else changes the step |
| Onboarding.HandleSubmit | src/components/Onboarding.jsx:47-60 | an empty selection is ignored; otherwise the created campaign is handed on iff creation succeeds |
| Onboarding.EmptySelectionIsIgnored | src/components/Onboarding.jsx:48 | an empty selection is ignored whatever the server would answer |
| App.LoadCampaigns | src/App.jsx:15-27 | a loaded list replaces the campaigns, and its first element becomes current when it is non-empty; a failed load changes nothing |
| App.CampaignCreated | src/App.jsx:29-32 | the new campaign is appended and becomes current |
| App.RemoveId | src/App.jsx:43 | every campaign with the id goes, and every other campaign keeps its count |
| App.FirstSurvivor | src/App.jsx:47-49 | the first remaining campaign is the first one in the list with another id |
| App.RemoveDistinctId | src/App.jsx:43 | with distinct ids, at most one campaign is removed |
| App.RemoveNothing | src/App.jsx:43 | removing an id nobody has keeps the list |
| App.CampaignDelete | src/App.jsx:42-54 | the id's campaigns go; deleting the current one selects the first remaining one, or none; otherwise the selection stays |
| App.HandlersKeepConsistent | src/App.jsx:15-54 | every handler keeps the current campaign in the list |
| Dashboard.DeleteCampaign | src/components/Dashboard.jsx:93-108 | deletion is refused iff exactly one campaign exists; it happens iff confirmed and the server call succeeds, and otherwise nothing changes |
| Dashboard.DeletionKeepsASelection | src/components/Dashboard.jsx:94-97 | deleting from the dashboard never leaves the app without a current campaign |
| Dashboard.Filters | src/components/Dashboard.jsx:57-60 | the filters always carry the relevance, and the subreddit iff one is chosen |
| Dashboard.FiltersMeaning | src/components/Dashboard.jsx:57-61 | the listing for the filters is the campaign's posts at or above the slider value, in the chosen subreddit when there is one |
| Dashboard.DashboardListing | src/components/Dashboard.jsx:55-73 | the posts the dashboard receives over the query string are exactly those its filters describe |
| Dashboard.LoadPosts | src/components/Dashboard.jsx:55-73 | a load replaces the posts; when the running closure sees no selection, the first post becomes selected, and otherwise the current selection is kept; a failure keeps both; loading ends either way |
| Dashboard.RunEffect | src/components/Dashboard.jsx:44-53 | the effect loads with the current selection and leaves the interval a closure holding that selection |
| Dashboard.SelectPost | src/components/Dashboard.jsx:84-86 | picking a post selects it and changes nothing else |
| Dashboard.Refresh | src/components/Dashboard.jsx:47 | a refresh tests the selection its closure captured, so with a captured empty selection it selects the first post loaded |
| Dashboard.RefreshReplacesUserChoice | src/components/Dashboard.jsx:44-67 | after mounting with nothing selected, a post the user picks is replaced by the next refresh's first post whenever they differ |
| Dashboard.RefreshLive | src/components/Dashboard.jsx:64-67 | a refresh that tests the current selection keeps any selection and selects the first post only when none is current |
| Dashboard.LiveRefreshKeepsUserChoice | src/components/Dashboard.jsx:64-67 | with such refreshes, a post the user picks stays selected through any number of them |
| Dashboard.AutoSelectedIsMostRelevant | src/components/Dashboard.jsx:65-67 | the automatically selected post is the most relevant one listed |
| Dashboard.StoredSetting | src/components/Dashboard.jsx:9-16 | a failed, missing, empty or unparsable stored value gives the default; otherwise the parsed value |
| Dashboard.SettingsDefaults | src/components/Dashboard.jsx:40-42 | the three settings default to 60, "" and "relevance" |
| PostList.BadgeFor | src/components/PostList.jsx:87-93 | green iff the score is at least 80, yellow iff it lies in [60, 80), gray iff below 60 |
| PostList.BadgeIsMonotone | src/components/PostList.jsx:87-93 | a higher score never gets a lower band |
| PostList.Preview | src/components/PostList.jsx:106-109 | a preview exists iff there is non-empty content; it is its first min(100, length) characters followed by "..." |
| PostList.ShortContentKeptWhole | src/components/PostList.jsx:108 | content of at most 100 characters is shown whole, still followed by "..." |
| PostList.LongContentCut | src/components/PostList.jsx:108 | longer content is cut to exactly 100 characters |

## Left out

- Network I/O is not modelled. This covers the Reddit client in `server/services/redditClient.js`, the language-model calls, and the similarity-service `fetch` calls with their 5-second timeout. Only their outcomes are inputs.
- The prompt texts and the similarity documents' text templates are not modelled. They are free-form strings with no behaviour to check; the model only records which prompt is chosen.
- Cron timing is not modelled. Neither is the unguarded start-up scan (`server/services/redditScanner.js:29`) nor the manual scan (`scanCampaignNow`), both of which may run alongside a guarded tick: the `isScanning` flag does not cover them.
- RedditScanner.ScanCampaign: the JSON decoding of the subreddit list is an input (`decodeSubreddits`). A decoded JSON string would be iterated character by character, and the model does not show that.
- RedditScanner.ScanPage: the insert after a successful existence check can only fail through the `writeFails` input. A concurrent insert of the same post, which would hit the UNIQUE constraint, is not modelled.
- The `LIMIT 1` sub-selects for `dm_content` and `comment_content` in the posts listing are not modelled. They are non-deterministic (no ORDER BY), so listed rows carry no response columns.
- RedditRoutes.RespondToPost: `INSERT OR REPLACE` is modelled as the plain append it is. The responses table has no uniqueness on (post, type), so nothing is ever replaced.
- ApiClient.RouteMinRelevance: the route binds the `minRelevance` text against an INTEGER column, and SQLite's type affinity decides what it means. The model reads it with `parseInt` instead. The two agree on the integer texts the client sends. They differ on other text. `parseInt` reads "60.5" and "60abc" as 60, and treats "abc" or "" as absent, which lists every row. SQLite compares "60.5" as the real 60.5, so a score of 60 is not listed. "abc", "" and "60abc" stay TEXT, which sorts above every INTEGER, so SQLite lists nothing.
- Campaign ids in route paths are taken as numbers; how SQLite treats a non-numeric id is not modelled.
- Foreign keys are not enforced by SQLite unless enabled, and the model does not check them either.
- `server/routes/campaigns.js` (campaign CRUD and the JSON round trip of the subreddit list) is not part of this model, apart from the campaign table's constraints.
- Rendering, `alert`, `confirm`, the clipboard and `window.open` are not modelled. This includes `src/components/PostDetail.jsx` (its badge repeats PostList's bands) and `src/components/SettingsModal.jsx`. The user's answer to the confirm dialog is an input.
- Dashboard.StoredSetting: the browser's local storage access and JSON parsing are inputs. Writing a setting (`setStoredValue`) is not modelled.
- The star endpoints and the subreddit-suggestion endpoint of the API client, and the `/test` route, are not modelled: they have no server logic to pair with.
- Timestamps are integers. A post insert's `CURRENT_TIMESTAMP` is the input `Env.clock` read at the id that insert hands out, so each insert has its own time. That the clock never runs back is assumed only where it is needed, by `Steady` in `RedditScanner.SweepStampsFollowInsertionOrder`. `Date.now`, the ISO conversion of `created_utc` and the other tables' timestamps are integer parameters. The DATETIME text format and its one-second resolution are not modelled.
- Database.InsertPost: a NULL bound explicitly to `relevance_score` is not modelled: `None` there means the column is left out and takes its default 0. The scanner always binds a score.
- Similarity scores are `real` values that are only compared. NaN scores, which would make `Math.max` NaN, are not modelled.
- Text.LowerAscii: `toLowerCase` is modelled on ASCII letters only; other letters are kept unchanged.
- Strings are sequences of code points, not UTF-16 units. Form encoding of non-ASCII characters (UTF-8 percent-escapes) is not modelled: they are kept as they are.
- JsParseInt.ParseInt: digit runs are read exactly. A JavaScript engine rounds runs of more than 20 significant digits to the nearest Number. That does not change the sign or the comparison with 0 and 100, so scores are unaffected.
- `server/index.js` and `vite.config.js` hold only start-up and configuration.

## Findings

| source | as written | input that shows it | evidently intended | confidence | as-written member | corrected member |
|---|---|---|---|---|---|---|
| src/components/Dashboard.jsx:44-67 | the 30-second interval keeps the `loadPosts` closure of the render that last ran the effect, so its `!selectedPost` test reads that render's selection, which is `null` after mount | the dashboard mounts with nothing selected; the user picks post P; the next refresh loads a list whose first post is not P, and the selection jumps to that post | auto-selection only when nothing is currently selected, as the comment at line 64 says, so a post the user picks stays selected | high; not executed | Dashboard.RefreshReplacesUserChoice | Dashboard.LiveRefreshKeepsUserChoice |
