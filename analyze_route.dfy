/**
 * The decision logic of the analysis endpoint, app/api/analyze/route.ts.
 *
 * The request body, the environment variable, the model call and `JSON.parse`
 * are inputs: `body` is `None` when `request.json()` throws, `generate` stands
 * for the model call and `parse` for `JSON.parse` (`None` when it throws).
 * The route as written neither rate-limits nor sanitizes, and builds its own
 * prompt rather than calling the prompt builders.
 */
module AnalyzeRoute {
  import opened Common
  import opened Types

  /** The fields the route destructures from the body. A field is `None` when
      absent; an absent or empty field is falsy. The client sends `image` as a
      structured object, but the route only tests its truthiness, so a string
      standing for it loses no behaviour. */
  datatype AnalyzeRequest = AnalyzeRequest(text: Option<string>, image: Option<string>, url: Option<string>)

  /** The outcome of the model call: it throws, or it answers with `response.text`
      (the empty string stands for a missing response or a missing text). */
  datatype ModelReply = ModelThrew | ModelAnswered(text: string)

  /** What `NextResponse.json` serialises. */
  datatype ResponseBody =
    | JsonBody(value: Json)
    | FallbackBody(result: AnalysisResult)
    | ErrorBody(error: string)

  datatype RouteResponse = RouteResponse(status: int, body: ResponseBody)

  const KeyPlaceholder := "YOUR_GEMINI_API_KEY_HERE"
  const KeyMissingMessage := "GEMINI_API_KEY is not configured"
  const NoReplyMessage := "Failed to get response from GEMINI API"
  const InternalErrorMessage := "Internal server error"

  /** The response of the outer `catch`. */
  const InternalError := RouteResponse(500, ErrorBody(InternalErrorMessage))

  /** The key check of lines 16-22. */
  predicate KeyConfigured(apiKey: Option<string>) {
    Truthy(apiKey) && apiKey.value != KeyPlaceholder
  }

  // ---------------------------------------------------------------------------
  // Input content and prompt (lines 25-62)
  // ---------------------------------------------------------------------------

  const ImageMarker := "Image: [Image data provided]"

  function TextLine(req: AnalyzeRequest): string {
    if Truthy(req.text) then "Text: " + req.text.value + "\n" else ""
  }

  function UrlLine(req: AnalyzeRequest): string {
    if Truthy(req.url) then "URL: " + req.url.value + "\n" else ""
  }

  function ImageLine(req: AnalyzeRequest): string {
    if Truthy(req.image) then ImageMarker + "\n" else ""
  }

  /** One line per truthy field, in the order text, URL, image. */
  function RouteInputContent(req: AnalyzeRequest): string {
    TextLine(req) + UrlLine(req) + ImageLine(req)
  }

  /** The content is empty exactly when no field is truthy; it leads with the
      text line exactly when the text is truthy; the URL line follows the text
      line exactly when the URL is truthy, and otherwise only the image line
      does; an image puts the marker line last; and every line is terminated. */
  lemma RouteInputContentLines(req: AnalyzeRequest)
    ensures RouteInputContent(req) == [] <==> !Truthy(req.text) && !Truthy(req.url) && !Truthy(req.image)
    ensures StartsWith(RouteInputContent(req), "Text: ") <==> Truthy(req.text)
    ensures Truthy(req.text) ==> StartsWith(RouteInputContent(req), "Text: " + req.text.value + "\n")
    ensures Truthy(req.url) ==> StartsWith(RouteInputContent(req)[|TextLine(req)|..], "URL: " + req.url.value + "\n")
    ensures !Truthy(req.url) ==> RouteInputContent(req)[|TextLine(req)|..] == ImageLine(req)
    ensures Truthy(req.image) ==> EndsWith(RouteInputContent(req), ImageMarker + "\n")
    ensures RouteInputContent(req) != [] ==> RouteInputContent(req)[|RouteInputContent(req)| - 1] == '\n'
  {
    var c := RouteInputContent(req);
    if !Truthy(req.text) && c != [] {
      assert c[0] == 'U' || c[0] == 'I';
    }
  }

  /** The route's inline prompt before its `${inputContent}`. */
  const RoutePromptHead: string :=
    "\n" +
    "以下の問題を分析して、解決に必要な知識をJSON形式で返してください。\n" +
    "\n" +
    "問題内容:\n"

  /** The route's inline prompt after its `${inputContent}`. */
  const RoutePromptTail: string :=
    "\n" +
    "\n" +
    "以下の形式でJSONを返してください:\n" +
    "{\n" +
    "  \"problem\": \"問題の要約\",\n" +
    "  \"knowledgeMap\": {\n" +
    "    \"core_concepts\": [\"必要な核心概念1\", \"必要な核心概念2\"],\n" +
    "    \"prerequisites\": [\"前提知識1\", \"前提知識2\"],\n" +
    "    \"difficulty_level\": \"初級/中級/上級\",\n" +
    "    \"estimated_time\": \"推定学習時間\",\n" +
    "    \"learning_path\": [\n" +
    "      {\n" +
    "        \"step\": 1,\n" +
    "        \"topic\": \"学習トピック\",\n" +
    "        \"description\": \"説明\",\n" +
    "        \"resources\": [\"リソース1\", \"リソース2\"]\n" +
    "      }\n" +
    "    ]\n" +
    "  },\n" +
    "  \"dependencies\": [\n" +
    "    {\n" +
    "      \"from\": \"前提項目\",\n" +
    "      \"to\": \"依存項目\", \n" +
    "      \"relationship\": \"prerequisite\"\n" +
    "    }\n" +
    "  ]\n" +
    "}\n"

  /** The prompt the route sends: its inline template around the input lines. */
  function RoutePrompt(inputContent: string): string {
    RoutePromptHead + inputContent + RoutePromptTail
  }

  // ---------------------------------------------------------------------------
  // The fenced block: /```json\s*([\s\S]*?)\s*```/ (line 88)
  // ---------------------------------------------------------------------------

  /** `\s*```` matches at index `k`: after the whitespace run from `k` come three backticks. */
  predicate ClosesAt(s: string, k: nat)
    requires k <= |s|
  {
    OccursAt(s, "```", k + RunLength(s, k, IsSpace))
  }

  /** The lazy group `([\s\S]*?)` ends at the first index, from `k` on, where the closing part matches. */
  function LazyEnd(s: string, k: nat): (r: Option<nat>)
    requires k <= |s|
    decreases |s| - k
    ensures r.Some? ==> k <= r.value <= |s| && ClosesAt(s, r.value)
    ensures r.Some? ==> forall j :: k <= j < r.value ==> !ClosesAt(s, j)
    ensures r.None? ==> forall j :: k <= j <= |s| ==> !ClosesAt(s, j)
  {
    if ClosesAt(s, k) then Some(k)
    else if k == |s| then None
    else LazyEnd(s, k + 1)
  }

  /** Where the group of an opening at `i` starts: after "```json" and the
      greedy `\s*` that follows it. */
  function GroupStart(s: string, i: nat): (g: nat)
    requires i + 7 <= |s|
    ensures i + 7 <= g <= |s|
  {
    i + 7 + RunLength(s, i + 7, IsSpace)
  }

  /** The pattern tried at index `i`: the captured group, if it matches there. */
  function FenceAt(s: string, i: nat): Option<string>
    requires i <= |s|
  {
    if !OccursAt(s, "```json", i) then None
    else
      var g := GroupStart(s, i);
      match LazyEnd(s, g)
      case None => None
      case Some(k) => Some(s[g..k])
  }

  /** `match` tries the pattern at each index from `from` on and takes the first success. */
  function FenceFrom(s: string, from: nat): Option<string>
    requires from <= |s|
    decreases |s| - from
  {
    match FenceAt(s, from)
    case Some(group) => Some(group)
    case None => if from == |s| then None else FenceFrom(s, from + 1)
  }

  /** `geminiResponse.match(...)`, as the captured group. */
  function FenceMatch(s: string): Option<string> {
    FenceFrom(s, 0)
  }

  /** With no backticks from `from` on, the closing part matches nowhere from `from` on. */
  lemma NoCloseAfter(s: string, from: nat, k: nat)
    requires from <= k <= |s|
    requires forall j :: from <= j ==> !OccursAt(s, "```", j)
    ensures !ClosesAt(s, k)
  {
  }

  /** Where the pattern is tried, from `from` on, it fails when the first
      opening at or after `from` is at `i0` and no backticks follow `i0 + 7`. */
  lemma {:induction false} UnclosedFails(s: string, i0: nat, from: nat)
    requires from <= |s|
    requires forall j :: i0 + 7 <= j ==> !OccursAt(s, "```", j)
    requires forall j :: from <= j < i0 ==> !OccursAt(s, "```json", j)
    ensures FenceFrom(s, from).None?
    decreases |s| - from
  {
    if OccursAt(s, "```json", from) {
      var g := GroupStart(s, from);
      forall k | g <= k <= |s| ensures !ClosesAt(s, k) {
        NoCloseAfter(s, i0 + 7, k);
      }
    }
    if from < |s| {
      UnclosedFails(s, i0, from + 1);
    }
  }

  /** Before the first opening nothing matches. */
  lemma {:induction false} FenceSkipsToOpening(s: string, from: nat, i0: nat)
    requires from <= i0 <= |s|
    requires forall j :: from <= j < i0 ==> !OccursAt(s, "```json", j)
    ensures FenceFrom(s, from) == FenceFrom(s, i0)
    decreases i0 - from
  {
    if from < i0 {
      FenceSkipsToOpening(s, from + 1, i0);
    }
  }

  /** Between the group start and the first closing backticks, the closing part
      matches exactly where only whitespace remains before the backticks. */
  lemma ClosesBeforeFirst(s: string, g: nat, q: nat, k: nat)
    requires g <= k <= q && OccursAt(s, "```", q)
    requires forall j :: g <= j < q ==> !OccursAt(s, "```", j)
    ensures ClosesAt(s, k) <==> AllSpace(s[k..q])
  {
    var n := RunLength(s, k, IsSpace);
    assert s[q] == s[q..q + 3][0] == '`';
    if AllSpace(s[k..q]) {
      forall j | k <= j < q ensures IsSpace(s[j]) {
        assert s[k..q][j - k] == s[j];
      }
    }
    if ClosesAt(s, k) {
      forall j | 0 <= j < q - k ensures IsSpace(s[k..q][j]) {
        assert s[k..q][j] == s[k + j];
      }
    }
  }

  /** The leading whitespace run from `i` is all whitespace. */
  lemma RunIsSpace(s: string, i: nat)
    requires i <= |s|
    ensures AllSpace(s[i..i + RunLength(s, i, IsSpace)])
  {
    var lead := s[i..i + RunLength(s, i, IsSpace)];
    forall j | 0 <= j < |lead| ensures IsSpace(lead[j]) {
      assert lead[j] == s[i + j];
    }
  }

  /** The whitespace skipped after an opening at `i` ends before the first
      backticks at `q`, and the group starts with a non-whitespace character or
      at the end of the text. */
  lemma GroupStartFacts(s: string, i: nat, q: nat)
    requires i + 7 <= q && OccursAt(s, "```", q)
    ensures GroupStart(s, i) <= q
    ensures AllSpace(s[i + 7..GroupStart(s, i)])
    ensures GroupStart(s, i) == |s| || !IsSpace(s[GroupStart(s, i)])
  {
    assert s[q] == s[q..q + 3][0] == '`';
    RunStopsAt(s, i + 7, q, IsSpace);
    RunIsSpace(s, i + 7);
  }

  /** A match of the pattern at an opening whose lazy group ends at `k`. */
  lemma FenceAtGroup(s: string, i: nat, k: nat)
    requires OccursAt(s, "```json", i)
    requires LazyEnd(s, GroupStart(s, i)) == Some(k)
    ensures FenceAt(s, i) == Some(s[GroupStart(s, i)..k])
  {
  }

  /** The captured group of the first opening is the text between it and the
      next closing backticks, with the whitespace at both ends removed. */
  lemma FenceAtFirstClose(s: string, i0: nat, q: nat)
    requires OccursAt(s, "```json", i0)
    requires i0 + 7 <= q && OccursAt(s, "```", q)
    requires forall j :: i0 + 7 <= j < q ==> !OccursAt(s, "```", j)
    ensures FenceAt(s, i0) == Some(Trim(s[i0 + 7..q]))
  {
    var g := GroupStart(s, i0);
    GroupStartFacts(s, i0, q);
    var k := GroupEnd(s, g, q);
    FenceAtGroup(s, i0, k);
    TrimAroundGroup(s, i0 + 7, g, k, q);
  }

  /** Text made of a whitespace run, a group that neither starts nor ends with
      whitespace, and another whitespace run trims to the group. */
  lemma TrimAroundGroup(s: string, lo: nat, g: nat, k: nat, q: nat)
    requires lo <= g <= k <= q <= |s|
    requires AllSpace(s[lo..g]) && AllSpace(s[k..q])
    requires g == k || (!IsSpace(s[g]) && !IsSpace(s[k - 1]))
    ensures Trim(s[lo..q]) == s[g..k]
  {
    var group := s[g..k];
    if group != [] {
      assert group[0] == s[g] && group[|group| - 1] == s[k - 1];
    }
    assert s[lo..q] == s[lo..g] + group + s[k..q];
    TrimOfParts(s[lo..g], group, s[k..q]);
  }

  /** Three backticks at `q` close a group ending at `q`. */
  lemma ClosesAtTicks(s: string, q: nat)
    requires OccursAt(s, "```", q)
    ensures ClosesAt(s, q)
  {
    assert s[q] == s[q..q + 3][0] == '`';
  }

  /** The lazy group from `g` ends at the latest at a place `q` where the closing part matches. */
  lemma LazyEndBefore(s: string, g: nat, q: nat) returns (k: nat)
    requires g <= q <= |s| && ClosesAt(s, q)
    ensures LazyEnd(s, g) == Some(k) && g <= k <= q
    ensures ClosesAt(s, k) && (k == g || !ClosesAt(s, k - 1))
  {
    var r := LazyEnd(s, g);
    k := r.value;
  }

  /** Where the closing part first matches before the first backticks at `q`,
      only whitespace is left before them, and no whitespace comes just before. */
  lemma SpaceBeforeClose(s: string, g: nat, q: nat, k: nat)
    requires g <= k <= q && OccursAt(s, "```", q)
    requires forall j :: g <= j < q ==> !OccursAt(s, "```", j)
    requires ClosesAt(s, k) && (k == g || !ClosesAt(s, k - 1))
    ensures AllSpace(s[k..q]) && (k == g || !IsSpace(s[k - 1]))
  {
    ClosesBeforeFirst(s, g, q, k);
    if k > g {
      ClosesBeforeFirst(s, g, q, k - 1);
      AllSpaceCons(s, k - 1, q);
    }
  }

  /** The lazy group from `g` ends where the whitespace just before the first
      closing backticks at `q` begins. */
  lemma GroupEnd(s: string, g: nat, q: nat) returns (k: nat)
    requires g <= q && OccursAt(s, "```", q)
    requires forall j :: g <= j < q ==> !OccursAt(s, "```", j)
    ensures LazyEnd(s, g) == Some(k) && g <= k <= q
    ensures AllSpace(s[k..q]) && (k == g || !IsSpace(s[k - 1]))
  {
    ClosesAtTicks(s, q);
    k := LazyEndBefore(s, g, q);
    SpaceBeforeClose(s, g, q, k);
  }

  /** An opening with no closing backticks after it matches nowhere. */
  lemma FenceUnclosed(s: string, i0: nat)
    requires i0 <= |s|
    requires forall j :: 0 <= j < i0 ==> !OccursAt(s, "```json", j)
    requires forall j :: i0 + 7 <= j ==> !OccursAt(s, "```", j)
    ensures FenceMatch(s).None?
  {
    UnclosedFails(s, i0, 0);
  }

  /** The reference reading of the fenced-block pattern: the trimmed text
      between the first "```json" and the next "```" after it, if both exist. */
  function FenceSpec(s: string): Option<string> {
    match IndexOfFrom(s, "```json", 0)
    case None => None
    case Some(i0) =>
      match IndexOfFrom(s, "```", i0 + 7)
      case None => None
      case Some(q) => Some(Trim(s[i0 + 7..q]))
  }

  /** The pattern matcher agrees with the reference reading on every reply. */
  lemma FenceExtraction(s: string)
    ensures FenceMatch(s) == FenceSpec(s)
  {
    var open := IndexOfFrom(s, "```json", 0);
    if open.None? {
      FenceNoOpening(s);
    } else if IndexOfFrom(s, "```", open.value + 7).None? {
      FenceOpenUnclosed(s, open.value);
    } else {
      FenceOpenClosed(s, open.value, IndexOfFrom(s, "```", open.value + 7).value);
    }
  }

  /** A reply without an opening: no match. */
  lemma FenceNoOpening(s: string)
    requires IndexOfFrom(s, "```json", 0).None?
    ensures FenceMatch(s) == FenceSpec(s) == None
  {
    UnclosedFails(s, |s|, 0);
  }

  /** A first opening with no closing backticks after it: no match. */
  lemma FenceOpenUnclosed(s: string, i0: nat)
    requires IndexOfFrom(s, "```json", 0) == Some(i0)
    requires IndexOfFrom(s, "```", i0 + 7).None?
    ensures FenceMatch(s) == FenceSpec(s) == None
  {
    FenceUnclosed(s, i0);
  }

  /** A first opening closed at `q`: the group is the trimmed text between them. */
  lemma FenceOpenClosed(s: string, i0: nat, q: nat)
    requires IndexOfFrom(s, "```json", 0) == Some(i0)
    requires IndexOfFrom(s, "```", i0 + 7) == Some(q)
    ensures FenceMatch(s) == FenceSpec(s) == Some(Trim(s[i0 + 7..q]))
  {
    FenceSkipsToOpening(s, 0, i0);
    FenceAtFirstClose(s, i0, q);
  }

  // ---------------------------------------------------------------------------
  // The fallback literal (lines 99-118)
  // ---------------------------------------------------------------------------

  /** The mock result returned when the whole reply does not parse. Its
      problem is the request's text when that is truthy, and never empty; its
      knowledge map has one learning step, numbered 1, and a single edge
      leads from the problem analysis to the solution. */
  function FallbackResult(text: Option<string>): (r: AnalysisResult)
    ensures r.problem != []
    ensures Truthy(text) ==> r.problem == text.value
    ensures !Truthy(text) ==> r.problem == "Uploaded content analysis"
    ensures |r.knowledgeMap.learningPath| == 1 && r.knowledgeMap.learningPath[0].step == 1
    ensures r.dependencies == [Dependency("Problem Analysis", "Solution Development", "prerequisite")]
  {
    AnalysisResult(
      if Truthy(text) then text.value else "Uploaded content analysis",
      KnowledgeMap(
        ["Problem analysis", "Research skills"],
        ["Basic analytical skills"],
        "Intermediate",
        "2-4 weeks",
        [LearningPathStep(1, "Problem Analysis", "Analyze the problem structure", ["Problem-solving frameworks"])]),
      [Dependency("Problem Analysis", "Solution Development", "prerequisite")])
  }

  // ---------------------------------------------------------------------------
  // POST (lines 7-131)
  // ---------------------------------------------------------------------------

  /** The answer of the route to a model reply: a throw is caught as 500; an
      empty reply is a 500 of its own; a fenced block must parse, and its
      failure is not recovered; otherwise the whole reply is parsed, with the
      fallback result when that fails. */
  predicate AnswersReply(response: RouteResponse, req: AnalyzeRequest, reply: ModelReply,
                         parse: string -> Option<Json>)
  {
    match reply
    case ModelThrew => response == InternalError
    case ModelAnswered(text) =>
      if text == [] then response == RouteResponse(500, ErrorBody(NoReplyMessage))
      else if FenceMatch(text).Some? then
        response == match parse(FenceMatch(text).value)
                    case Some(j) => RouteResponse(200, JsonBody(j))
                    case None => InternalError
      else
        response == match parse(text)
                    case Some(j) => RouteResponse(200, JsonBody(j))
                    case None => RouteResponse(200, FallbackBody(FallbackResult(req.text)))
  }

  /** The route's handling of the model reply. */
  method HandleReply(req: AnalyzeRequest, reply: ModelReply, parse: string -> Option<Json>)
    returns (response: RouteResponse)
    ensures AnswersReply(response, req, reply, parse)
    ensures response.status == 200 || response.status == 500
  {
    if reply.ModelThrew? {
      return InternalError;
    }
    if reply.text == [] {
      return RouteResponse(500, ErrorBody(NoReplyMessage));
    }
    var geminiResponse := reply.text;
    var jsonMatch := FenceMatch(geminiResponse);
    if jsonMatch.Some? {
      var parsed := parse(jsonMatch.value);
      if parsed.None? {
        return InternalError;
      }
      response := RouteResponse(200, JsonBody(parsed.value));
    } else {
      var parsed := parse(geminiResponse);
      if parsed.Some? {
        response := RouteResponse(200, JsonBody(parsed.value));
      } else {
        response := RouteResponse(200, FallbackBody(FallbackResult(req.text)));
      }
    }
  }

  /** The route's loop-free build of `inputContent`, one append per truthy field. */
  method BuildRouteInput(req: AnalyzeRequest) returns (inputContent: string)
    ensures inputContent == RouteInputContent(req)
  {
    inputContent := "";
    if Truthy(req.text) {
      inputContent := inputContent + "Text: " + req.text.value + "\n";
    }
    assert inputContent == TextLine(req);
    if Truthy(req.url) {
      inputContent := inputContent + "URL: " + req.url.value + "\n";
    }
    assert inputContent == TextLine(req) + UrlLine(req);
    if Truthy(req.image) {
      inputContent := inputContent + ImageMarker + "\n";
    }
  }

  /** The route handler. `sent` is the prompt passed to the model, `None` when
      the model is not called. */
  method Post(body: Option<AnalyzeRequest>, apiKey: Option<string>,
              generate: string -> ModelReply, parse: string -> Option<Json>)
    returns (response: RouteResponse, sent: Option<string>)
    // an unreadable body reaches the outer catch
    ensures body.None? ==> response == InternalError && sent.None?
    // a missing or placeholder key: 500, and no model call
    ensures body.Some? && !KeyConfigured(apiKey) ==>
      response == RouteResponse(500, ErrorBody(KeyMissingMessage)) && sent.None?
    // otherwise the model gets the inline prompt around the input lines
    ensures body.Some? && KeyConfigured(apiKey) ==>
      sent == Some(RoutePrompt(RouteInputContent(body.value)))
    ensures sent.Some? ==> AnswersReply(response, body.value, generate(sent.value), parse)
    ensures response.status == 200 || response.status == 500
  {
    sent := None;
    if body.None? {
      return InternalError, None;
    }
    var req := body.value;
    if !KeyConfigured(apiKey) {
      return RouteResponse(500, ErrorBody(KeyMissingMessage)), None;
    }
    var inputContent := BuildRouteInput(req);
    var prompt := RoutePrompt(inputContent);
    sent := Some(prompt);
    var reply := generate(prompt);
    response := HandleReply(req, reply, parse);
  }
}
