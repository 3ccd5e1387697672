/** The client of the similarity-search microservice.  Each operation sends
    one HTTP request and turns the reply (or the thrown error) into a result
    value; no operation ever lets an error escape.  The HTTP exchange itself,
    with its 5-second timeout, is an oracle: the reply is an input. */
module RagService {
  import opened Basics
  import opened Text
  import opened JsParseInt

  /** What `fetch` produced: a response with a status and a body that
      `response.json()` could parse (or not), or a thrown network error
      (including the timeout). */
  datatype HttpReply<B> = Response(status: int, body: Option<B>) | NetworkError(message: string)

  /** `response.ok`. */
  predicate IsOk(status: int) {
    200 <= status <= 299
  }

  /** The requests the service accepts: the collection they address and,
      for documents, the document id. */
  datatype RagRequest =
    | EmbedDocument(collection: string, documentId: string)
    | QueryCollection(collection: string, topK: nat, minScore: real)
    | DeleteDocument(collection: string, documentId: string)
    | DeleteCollection(collection: string)
    | HealthProbe

  /** Why an operation failed. */
  datatype RagError =
    | HttpStatus(status: int)
    | Unreachable(message: string)
    | UnreadableBody
    | Reported(message: string)

  /** The JSON body of embed and delete replies. */
  datatype ServiceReply = ServiceReply(success: bool, message: Option<string>)

  /** The JSON body of a query reply: `results` may be missing. */
  datatype QueryReply = QueryReply(success: bool, results: Option<seq<real>>)

  const DefaultThreshold: real := 0.6
  const FilterTopK: nat := 5
  const MatchingTopK: nat := 10

  /** The collection every operation on a campaign addresses: `campaign_`
      followed by the campaign id in decimal, which reads back as the id. */
  function CollectionName(campaignId: nat): (name: string)
    ensures |name| > 9 && name[..9] == "campaign_"
    ensures forall i :: 9 <= i < |name| ==> '0' <= name[i] <= '9'
    ensures ParseInt(name[9..]) == Num(campaignId)
  {
    var name := "campaign_" + ShowNat(campaignId);
    assert name[9..] == ShowNat(campaignId);
    ParseShowNat(campaignId);
    name
  }

  /** The id of a post embedding: `post_`, the post id, `_` and the
      embedding time in ms, which reads back as that time. */
  function PostDocumentId(postId: string, nowMs: nat): (id: string)
    ensures |id| > 6 + |postId| && id[..5] == "post_"
    ensures id[5..5 + |postId|] == postId && id[5 + |postId|] == '_'
    ensures ParseInt(id[6 + |postId|..]) == Num(nowMs)
  {
    var tail := "_" + ShowNat(nowMs);
    var id := "post_" + (postId + tail);
    assert id[5..] == postId + tail;
    assert id[5..5 + |postId|] == postId;
    assert id[6 + |postId|..] == ShowNat(nowMs);
    ParseShowNat(nowMs);
    id
  }

  /** The id of a campaign's seed document: `seed_` and the campaign id,
      whatever the time. */
  function SeedDocumentId(campaignId: nat): (id: string)
    ensures |id| > 5 && id[..5] == "seed_"
    ensures ParseInt(id[5..]) == Num(campaignId)
  {
    var id := "seed_" + ShowNat(campaignId);
    assert id[5..] == ShowNat(campaignId);
    ParseShowNat(campaignId);
    id
  }

  /** Distinct campaigns never share a collection. */
  lemma CollectionNameInjective(a: nat, b: nat)
    ensures CollectionName(a) == CollectionName(b) ==> a == b
  {
    if CollectionName(a) == CollectionName(b) {
      var p := "campaign_";
      assert ShowNat(a) == CollectionName(a)[|p|..];
      assert ShowNat(b) == CollectionName(b)[|p|..];
      ShowNatInjective(a, b);
    }
  }

  /** A seed document id can never collide with a post document id. */
  lemma SeedAndPostIdsDiffer(campaignId: nat, postId: string, nowMs: nat)
    ensures SeedDocumentId(campaignId) != PostDocumentId(postId, nowMs)
  {
    assert SeedDocumentId(campaignId)[0] == 's';
    assert PostDocumentId(postId, nowMs)[0] == 'p';
  }

  /** The request each operation sends for a campaign. */
  function EmbedPostRequest(campaignId: nat, postId: string, nowMs: nat): RagRequest {
    EmbedDocument(CollectionName(campaignId), PostDocumentId(postId, nowMs))
  }

  function FilterQueryRequest(campaignId: nat, topK: Option<nat>): RagRequest {
    QueryCollection(CollectionName(campaignId), topK.GetOr(FilterTopK), 0.0)
  }

  function MatchingQueryRequest(campaignId: nat, topK: Option<nat>): RagRequest {
    QueryCollection(CollectionName(campaignId), topK.GetOr(MatchingTopK), 0.0)
  }

  function DeleteDocumentRequest(campaignId: nat, documentId: string): RagRequest {
    DeleteDocument(CollectionName(campaignId), documentId)
  }

  function SeedRequest(campaignId: nat): RagRequest {
    EmbedDocument(CollectionName(campaignId), SeedDocumentId(campaignId))
  }

  function CleanupRequest(campaignId: nat): RagRequest {
    DeleteCollection(CollectionName(campaignId))
  }

  /** The campaign a collection name addresses, read back from its digits. */
  function CampaignOfCollection(collection: string): Option<nat> {
    var p := "campaign_";
    if p <= collection && |collection| > |p| then
      match ParseInt(collection[|p|..])
      case Num(v) => if v >= 0 then Some(v) else None
      case NaN => None
    else None
  }

  /** Every campaign-scoped request addresses exactly that campaign's
      collection, whatever the operation. */
  lemma RequestsTargetTheirCampaign(campaignId: nat, postId: string, nowMs: nat, documentId: string, topK: Option<nat>)
    ensures CampaignOfCollection(EmbedPostRequest(campaignId, postId, nowMs).collection) == Some(campaignId)
    ensures CampaignOfCollection(FilterQueryRequest(campaignId, topK).collection) == Some(campaignId)
    ensures CampaignOfCollection(MatchingQueryRequest(campaignId, topK).collection) == Some(campaignId)
    ensures CampaignOfCollection(DeleteDocumentRequest(campaignId, documentId).collection) == Some(campaignId)
    ensures CampaignOfCollection(SeedRequest(campaignId).collection) == Some(campaignId)
    ensures CampaignOfCollection(CleanupRequest(campaignId).collection) == Some(campaignId)
  {
    var name := CollectionName(campaignId);
    assert name[|"campaign_"|..] == ShowNat(campaignId);
    ParseShowNat(campaignId);
  }

  /** `result.message || fallback`: an absent or empty message is replaced. */
  function MessageOr(message: Option<string>, fallback: string): (text: string)
    ensures message.Some? && message.value != "" ==> text == message.value
    ensures message.None? || message.value == "" ==> text == fallback
  {
    match message
    case Some(m) => if m != "" then m else fallback
    case None => fallback
  }

  /** The result of `embedPost`. */
  datatype EmbedResult = Embedded(documentId: string) | EmbedFailed(error: RagError)

  /** `embedPost`: the post is embedded under `post_<id>_<now>`; the id is
      returned only when the service answered OK with `success`. */
  function EmbedPost(campaignId: nat, postId: string, nowMs: nat, reply: HttpReply<ServiceReply>): (r: EmbedResult)
    ensures r.Embedded? <==>
      reply.Response? && IsOk(reply.status) && reply.body.Some? && reply.body.value.success
    ensures r.Embedded? ==> r.documentId == EmbedPostRequest(campaignId, postId, nowMs).documentId
    ensures reply.Response? && !IsOk(reply.status) ==> r == EmbedFailed(HttpStatus(reply.status))
  {
    match reply
    case NetworkError(m) => EmbedFailed(Unreachable(m))
    case Response(status, body) =>
      if !IsOk(status) then EmbedFailed(HttpStatus(status))
      else match body
        case None => EmbedFailed(UnreadableBody)
        case Some(sr) =>
          if sr.success then Embedded(PostDocumentId(postId, nowMs))
          else EmbedFailed(Reported(MessageOr(sr.message, "Unknown embed error")))
  }

  /** `Math.max(...scores)` of a non-empty list. */
  function MaxScore(scores: seq<real>): (m: real)
    requires |scores| > 0
    ensures m in scores
    ensures forall i :: 0 <= i < |scores| ==> scores[i] <= m
  {
    if |scores| == 1 then scores[0]
    else
      var rest := MaxScore(scores[1..]);
      if scores[0] >= rest then scores[0] else rest
  }

  /** What both query operations return. */
  datatype Decision = Decision(success: bool, shouldProcess: bool, similarity: Option<real>,
                               matchCount: Option<nat>, error: Option<RagError>)

  /** The scores of a successful, non-empty query reply, if that is what
      the reply is. */
  function Matches(reply: HttpReply<QueryReply>): Option<seq<real>> {
    if reply.Response? && IsOk(reply.status) && reply.body.Some? && reply.body.value.success
       && reply.body.value.results.Some? && |reply.body.value.results.value| > 0
    then reply.body.value.results
    else None
  }

  /** The error a query reply carries, if the call threw: network error,
      non-OK status, unreadable body, or `success` without `results`. */
  function QueryError(reply: HttpReply<QueryReply>): Option<RagError> {
    match reply
    case NetworkError(m) => Some(Unreachable(m))
    case Response(status, body) =>
      if !IsOk(status) then Some(HttpStatus(status))
      else if body.None? then Some(UnreadableBody)
      else if body.value.success && body.value.results.None? then Some(UnreadableBody)
      else None
  }

  /** `queryAndFilter`: with matches, the similarity is their maximum and
      the post is processed iff it reaches the threshold (default 0.6);
      with no match or an unsuccessful reply it succeeds and processes the
      post; when the call throws it reports failure and still processes the
      post: it fails open. */
  function QueryAndFilter(reply: HttpReply<QueryReply>, threshold: Option<real>): (d: Decision)
    ensures Matches(reply).Some? ==>
      d.success && d.similarity == Some(MaxScore(Matches(reply).value))
      && (d.shouldProcess <==> MaxScore(Matches(reply).value) >= threshold.GetOr(DefaultThreshold))
    ensures Matches(reply).None? ==> d.shouldProcess
    ensures Matches(reply).None? && QueryError(reply).None? ==>
      d == Decision(true, true, Some(0.0), Some(0), None)
    ensures QueryError(reply).Some? ==> !d.success && d.error == QueryError(reply)
  {
    if QueryError(reply).Some? then Decision(false, true, None, None, QueryError(reply))
    else match Matches(reply)
      case Some(scores) =>
        var top := MaxScore(scores);
        Decision(true, top >= threshold.GetOr(DefaultThreshold), Some(top), Some(|scores|), None)
      case None => Decision(true, true, Some(0.0), Some(0), None)
  }

  /** `queryForMatching`: the same maximum-against-threshold rule for
      matches, but an empty or unsuccessful reply and a thrown error both
      decide not to process: it fails closed. */
  function QueryForMatching(reply: HttpReply<QueryReply>, threshold: Option<real>): (d: Decision)
    ensures Matches(reply).Some? ==>
      d.success && d.similarity == Some(MaxScore(Matches(reply).value))
      && (d.shouldProcess <==> MaxScore(Matches(reply).value) >= threshold.GetOr(DefaultThreshold))
    ensures Matches(reply).None? ==> !d.shouldProcess
    ensures QueryError(reply).Some? ==> !d.success && d.error == QueryError(reply)
    ensures Matches(reply).None? && QueryError(reply).None? ==> d == Decision(true, false, Some(0.0), None, None)
  {
    if QueryError(reply).Some? then Decision(false, false, None, None, QueryError(reply))
    else match Matches(reply)
      case Some(scores) =>
        var top := MaxScore(scores);
        Decision(true, top >= threshold.GetOr(DefaultThreshold), Some(top), None, None)
      case None => Decision(true, false, Some(0.0), None, None)
  }

  /** The two queries agree whenever there are matches, and otherwise
      matching never processes where filtering does not: matching is never
      more permissive than filtering. */
  lemma MatchingIsStricterThanFiltering(reply: HttpReply<QueryReply>, threshold: Option<real>)
    ensures QueryForMatching(reply, threshold).shouldProcess ==> QueryAndFilter(reply, threshold).shouldProcess
    ensures Matches(reply).Some? ==>
      QueryForMatching(reply, threshold).shouldProcess == QueryAndFilter(reply, threshold).shouldProcess
    ensures Matches(reply).None? ==>
      QueryAndFilter(reply, threshold).shouldProcess && !QueryForMatching(reply, threshold).shouldProcess
  {
  }

  /** The result of `deleteDocument` and `cleanupCampaign`. */
  datatype Acknowledgement = Acknowledgement(success: bool, error: Option<RagError>)

  /** `deleteDocument` / `cleanupCampaign`: the service's own `success`
      flag and message are passed through; a thrown error gives failure. */
  function Acknowledge(reply: HttpReply<ServiceReply>): (a: Acknowledgement)
    ensures a.success <==> reply.Response? && IsOk(reply.status) && reply.body.Some? && reply.body.value.success
    ensures reply.Response? && IsOk(reply.status) && reply.body.Some? ==>
      a.error == (match reply.body.value.message case Some(m) => Some(Reported(m)) case None => None)
  {
    match reply
    case NetworkError(m) => Acknowledgement(false, Some(Unreachable(m)))
    case Response(status, body) =>
      if !IsOk(status) then Acknowledgement(false, Some(HttpStatus(status)))
      else match body
        case None => Acknowledgement(false, Some(UnreadableBody))
        case Some(sr) =>
          Acknowledgement(sr.success, match sr.message case Some(m) => Some(Reported(m)) case None => None)
  }

  /** The result of `initializeCampaignWithSeed`. */
  datatype SeedResult = Seeded(seedDocumentId: string) | SeedFailed(error: RagError)

  /** `initializeCampaignWithSeed`: on success the seed id is exactly
      `seed_<campaignId>`, whenever it is called. */
  function InitializeCampaignWithSeed(campaignId: nat, reply: HttpReply<ServiceReply>): (r: SeedResult)
    ensures r.Seeded? <==>
      reply.Response? && IsOk(reply.status) && reply.body.Some? && reply.body.value.success
    ensures r.Seeded? ==> r.seedDocumentId == SeedRequest(campaignId).documentId
  {
    match reply
    case NetworkError(m) => SeedFailed(Unreachable(m))
    case Response(status, body) =>
      if !IsOk(status) then SeedFailed(HttpStatus(status))
      else match body
        case None => SeedFailed(UnreadableBody)
        case Some(sr) =>
          if sr.success then Seeded(SeedDocumentId(campaignId))
          else SeedFailed(Reported(MessageOr(sr.message, "Unknown seed initialization error")))
  }

  /** The body of `/health`. */
  datatype HealthBody = HealthBody(status: string)

  datatype Health = Available(status: string) | Unavailable(error: RagError)

  /** `healthCheck`: available iff the probe answers OK with a readable
      body; every failure, thrown or not, is reported as unavailable. */
  function HealthCheck(reply: HttpReply<HealthBody>): (h: Health)
    ensures h.Available? <==> reply.Response? && IsOk(reply.status) && reply.body.Some?
    ensures h.Available? ==> h.status == reply.body.value.status
  {
    match reply
    case NetworkError(m) => Unavailable(Unreachable(m))
    case Response(status, body) =>
      if !IsOk(status) then Unavailable(HttpStatus(status))
      else match body
        case None => Unavailable(UnreadableBody)
        case Some(b) => Available(b.status)
  }
}
