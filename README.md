# CAN_I_DO_THIS — a verified model of the request handling and client-side rules

CAN_I_DO_THIS?? is a Next.js application. A visitor describes a problem, and the
analysis endpoint asks a language model for a knowledge map of what it takes to
solve it. A contact endpoint mails a visitor's message to the operator. This
project models the logic around those calls and proves properties of it:

- the sanitizers and validators of `lib/utils.ts` (module `Utils`);
- the fixed-window rate limiter of `lib/rate-limit.ts` (module `RateLimit`);
- the prompt builders of `lib/prompts/analysis.ts` (module `AnalysisPrompts`);
- the analysis endpoint `app/api/analyze/route.ts` (module `AnalyzeRoute`);
- the contact endpoint `app/api/contact/route.ts` (module `ContactRoute`);
- the error list and error parser of `hooks/useErrorModal.ts` (module `UseErrorModal`);
- the contact-form hook `hooks/useContactForm.ts` (module `UseContactForm`);
- the drag-and-drop hook `hooks/useDragAndDrop.ts` (module `UseDragAndDrop`);
- the share-text sanitizer and URL allowlist of `components/ShareButtons.tsx` (module `ShareButtons`).

`Types` holds the shared records of `types/index.ts`. `Common` holds the string
toolkit the modules share: JavaScript's whitespace set, `trim`, substring
search, `endsWith`, `join`, integer formatting, subsequences, the fields of a
parsed URL, and JSON values.

The form of each module follows its source:

- State that the source updates in place is a class.
  - The rate limiter's module-level `store` is `RateLimit.RateLimiter`.
  - The hooks' React state is `ErrorModalState`, `ContactFormState` and `DragState`.
  - The contact route's `NextResponse` is `ContactRoute.Response`.
- Code that accumulates a result step by step is a method proved against a specification function:
  - `buildInputContent`, its `+=` steps;
  - the `for` loop of `sanitizeJsonData`;
  - the reply handling of both routes.
- The pure helpers are functions with lemmas.

Every regular expression of the core is an explicit scanner. Each one is proved
against a reference reading of its pattern, in both directions:

- the fenced-JSON extraction (`AnalyzeRoute.FenceExtraction`);
- both e-mail patterns (`ContactRoute.EmailPatternCorrect`, `UseContactForm.ClientEmailCorrect`);
- the tag, event-handler and protocol patterns (`Utils.TagPatternCorrect`,
  `Utils.EventPatternCorrect`, `Utils.ProtocolPatternCorrect`).

Objects are sequences of members in JavaScript's own-property order: keys that
are array indices (section 6.1.7 of ECMA-262) come first, in ascending order,
and the other keys follow in the order they were created. Assigning to
`__proto__` runs the inherited setter, so it adds no own key.

External pieces are parameters:

- the parsed request body;
- the environment variables;
- the language-model call;
- `JSON.parse` and the `URL` parser, as partial functions;
- the outcome of `fetch` and of sending the mails;
- `Date.now()`, the random part of error identifiers, and `navigator.onLine`.

Some behaviour of the code is worth stating outright:

- The analysis endpoint neither rate-limits nor sanitizes its input, although
  `lib/rate-limit.ts` and `lib/utils.ts` provide both.
- A thrown model call reaches the outer `catch`, which answers 500 "Internal
  server error". There is no separate gateway status.
- When the fenced JSON block does not parse, the route answers 500. It falls
  back to the mock result only when there is no fenced block and the whole reply
  does not parse. The mock's `problem` is the raw, unsanitized `text`.
- The route builds its own inline prompt and does not call `buildAnalysisPrompt`.
- `strictSanitizeInput` is not idempotent: an `&` becomes `&amp;` and then
  `&amp;amp;` (`Utils.StrictSanitizeIsNotIdempotent`).
- The URL allowlist of the share buttons is a plain suffix test, so `evilx.com`
  passes for `x.com` (`ShareButtons.SuffixAdmitsLookalikeHost`).

## Model

| member | source | states |
|---|---|---|
| Utils.StripMatches | lib/utils.ts:32-38 | a global delete-every-match scan keeps a subsequence of its input and never lengthens it |
| Utils.TagMatch | lib/utils.ts:13 | a match of `<[^>]*>` is a non-empty prefix of the rest of the string |
| Utils.TagPatternCorrect | lib/utils.ts:13 | the scanner finds a tag of length `n` exactly when the first `n` characters are `<`, non-`>` characters and `>` |
| Utils.StripTags | lib/utils.ts:13 | stripping tags keeps a subsequence of the input |
| Utils.StripTagsWithoutClose | lib/utils.ts:13 | text without any `>` holds no tag and is kept whole |
| Utils.StripTagsLeavesNoTag | lib/utils.ts:13 | after the tag stage no `<` has a `>` anywhere after it, and the kept characters are in their original order |
| Utils.EventMatch | lib/utils.ts:32 | a match of the event-handler pattern is a non-empty prefix of the rest of the string |
| Utils.EventPatternCorrect | lib/utils.ts:32 | the scanner finds a handler of length `n` exactly when the first `n` characters split into `on`, word characters, whitespace, `=`, whitespace, a quote, non-quotes and a quote |
| Utils.EventShapeFound | lib/utils.ts:32 | every split of the pattern is found by the scanner, with its length |
| Utils.EventMatchSplits | lib/utils.ts:32 | whatever the scanner finds splits into the parts of the pattern |
| Utils.StripEventHandlers | lib/utils.ts:32 | removing event handlers keeps a subsequence of the input |
| Utils.EventHandlersNeedO | lib/utils.ts:32 | text without an `o` or `O` is left unchanged by the event-handler stage |
| Utils.ProtocolMatch | lib/utils.ts:35 | a match of the protocol alternatives is a non-empty prefix of the rest of the string |
| Utils.ProtocolPatternCorrect | lib/utils.ts:35 | the scanner matches `n` characters exactly when one of `javascript:`, `vbscript:`, `data:`, `file:` of that length starts the text, in either case |
| Utils.StripProtocols | lib/utils.ts:35 | removing protocol tokens keeps a subsequence of the input |
| Utils.ProtocolsNeedInitial | lib/utils.ts:35 | text without `j`, `v`, `d` or `f` in either case is left unchanged by the protocol stage |
| Utils.StripMatchesNowhere | lib/utils.ts:32-38 | a scan whose pattern matches nowhere returns its input |
| Utils.ReplaceCharAppend | lib/utils.ts:17-22 | one single-character global replace distributes over concatenation |
| Utils.ReplaceCharAbsent | lib/utils.ts:17-22 | a replace whose character is absent changes nothing |
| Utils.ReplaceCharSingle | lib/utils.ts:17-22 | a replace on a one-character string gives the replacement or that character |
| Utils.EscapeBasicAppend | lib/utils.ts:16-22 | the escape chain of `sanitizeInput` distributes over concatenation |
| Utils.EscapeStrictAppend | lib/utils.ts:41-48 | the escape chain of `strictSanitizeInput` distributes over concatenation |
| Utils.LaterStepsKeep | lib/utils.ts:18-22 | the replace steps after the first leave text without markup characters unchanged |
| Utils.EscapeBasicOne | lib/utils.ts:16-22 | on a single character the chain gives exactly that character's entity |
| Utils.EscapeStrictOne | lib/utils.ts:41-48 | the strict chain on a single character gives its entity, the backslash included |
| Utils.EscapeBasicIsPerChar | lib/utils.ts:16-22 | because `&` goes first, the chain equals an independent per-character entity map, with no double escaping |
| Utils.EscapeStrictIsPerChar | lib/utils.ts:41-48 | the strict chain equals the per-character entity map |
| Utils.ExpandBasicIsClean | lib/utils.ts:16-22 | escaped text holds no raw `<`, `>`, `"`, `'` or `/` |
| Utils.ExpandStrictIsClean | lib/utils.ts:41-48 | strictly escaped text holds none of those and no backslash |
| Utils.SanitizeInput | lib/utils.ts:9-25 | empty input gives `''`; the output holds no raw markup character and is the tag-stripped input, entity-escaped |
| Utils.StrictSanitizeInput | lib/utils.ts:28-51 | empty input gives `''`; the output holds no raw markup character and no backslash, and is the three-stage strip followed by the escape |
| Utils.StrictStripKeepsOrder | lib/utils.ts:32-38 | after the strict strip stages no tag-shaped span is left, and the kept characters are in order |
| Utils.ExpandAppend | lib/utils.ts:16-22 | the per-character map distributes over concatenation |
| Utils.ExpandStrictKeeps | lib/utils.ts:41-48 | escaping leaves text without the replaced characters unchanged |
| Utils.StrictSanitizeKeeps | lib/utils.ts:28-51 | text that no stage touches is returned unchanged |
| Utils.UntouchedAppend | lib/utils.ts:28-51 | text untouched by every stage stays so under concatenation |
| Utils.StrictSanitizeAmpPrefix | lib/utils.ts:42 | `&` followed by untouched text becomes `&amp;`, and the text stays as it was |
| Utils.StrictSanitizeIsNotIdempotent | lib/utils.ts:28-51 | sanitizing `&`+t twice gives `&amp;amp;`+t, which differs from sanitizing once |
| Utils.Substring0 | lib/utils.ts:85 | `substring(0, n)` is the prefix of length `n` clamped into the string's bounds |
| Utils.TruncateText | lib/utils.ts:83-86 | empty input gives `''`; text within the limit is kept; longer text is its first `maxLength` characters plus `...`, of length `maxLength + 3` |
| Utils.TruncateTextDefault | lib/utils.ts:83-85 | with the default limit of 1000, longer text becomes its first 1000 characters and `...` |
| Utils.RemoveForbidden | lib/utils.ts:94 | the output never grows and holds none of `<>:"/\|?*` |
| Utils.RemoveForbiddenKeepsOrder | lib/utils.ts:94 | the output is a subsequence of the input |
| Utils.RemoveForbiddenKeepsAllowed | lib/utils.ts:94 | every other character keeps its number of occurrences, so only the forbidden ones are deleted |
| Utils.RemoveForbiddenFixesClean | lib/utils.ts:94 | a name without forbidden characters is returned unchanged |
| Utils.RemoveDotPairs | lib/utils.ts:95 | the output never grows and holds only characters of the input |
| Utils.RemoveDotPairsKeepsOrder | lib/utils.ts:95 | the output is a subsequence of the input |
| Utils.RemoveDotPairsKeepsOthers | lib/utils.ts:95 | every character other than `.` keeps its number of occurrences |
| Utils.RemoveDotPairsFixesSingle | lib/utils.ts:95 | text without `..` is returned unchanged |
| Utils.RemoveDotPairsLeavesNoDoubleDot | lib/utils.ts:95 | at most one dot of each run survives, so no `..` is left, and a leading dot comes from the input |
| Utils.RemoveDotPairsRun | lib/utils.ts:95 | a run of `2m + b` dots (`b` at most 1) not followed by another dot leaves exactly `b` dots, so a run keeps its length's parity |
| Utils.SanitizeFileName | lib/utils.ts:89-97 | empty input gives `''`; the name has at most 255 characters, no forbidden character and no `..`; it is a subsequence of the input; when the name without forbidden characters and dot pairs has at most 255 characters, every character other than the forbidden ones and `.` keeps its count, and otherwise the name is cut to exactly 255; a clean name of at most 255 characters comes back unchanged |
| Utils.SanitizeFileNameKeeps | lib/utils.ts:93-96 | the three stages together keep the input's order, the counts of the other characters below the cut, and a clean name |
| Utils.AnyContainedMeansOccurs | lib/utils.ts:72 | some dangerous scheme is contained in the text exactly when it occurs at some index |
| Utils.ValidateUrl | lib/utils.ts:54-80 | true exactly when the URL is non-empty, parses, has protocol `http:` or `https:`, and its lower-cased href contains no dangerous scheme |
| Utils.IndexOfKey | lib/utils.ts:112 | the first member with the key at or after a position, or none with it there |
| Utils.SetMemberMembers | lib/utils.ts:112 | assigning to `__proto__` changes nothing; otherwise `key: value` becomes a member; members under other keys are exactly the old ones; a new key that is no array index is appended |
| Utils.SetMemberKeys | lib/utils.ts:112 | assigning a property adds exactly its key unless it is `__proto__`, and keeps keys distinct |
| Utils.SetMemberOrdered | lib/utils.ts:112 | the assignment keeps array-index keys first, in ascending order |
| Utils.IndexKeyListedFirst | lib/utils.ts:112 | assigning key `2` to `{a: v}` lists `2` before `a` |
| Utils.BuildObjectKeys | lib/utils.ts:110-114 | the built object has exactly the assigned keys other than `__proto__`, each once, in own-property order |
| Utils.BuildObjectLastWins | lib/utils.ts:110-114 | the last assignment to a key decides its value |
| Utils.BuildObjectPointwise | lib/utils.ts:110-114 | with distinct keys that are neither array indices nor `__proto__`, member `i` of the built object is the `i`-th assignment |
| Utils.SanitizedKeys | lib/utils.ts:112 | one sanitized key per member |
| Utils.SanitizedValues | lib/utils.ts:112 | one sanitized value per member |
| Utils.SanitizeJsonData | lib/utils.ts:100-118 | the recursive walk with its `for` loop returns the sanitized value |
| Utils.SanitizedShape | lib/utils.ts:100-108 | strings are strictly sanitized, arrays are mapped element by element, and scalars and null pass through |
| Utils.SanitizedObjectKeys | lib/utils.ts:109-115 | a sanitized object's keys are exactly the sanitized keys of the original other than `__proto__`, each once, in own-property order; colliding keys merge |
| Utils.SanitizedObjectLastWins | lib/utils.ts:109-115 | of members whose keys sanitize alike, the last one's sanitized value is kept |
| Utils.SanitizedObjectPointwise | lib/utils.ts:109-115 | when no two keys collide and none sanitizes to an array index or `__proto__`, member `i` is the sanitized key with the sanitized value |
| RateLimit.KeyInjective | lib/rate-limit.ts:7 | distinct identifiers use distinct store keys |
| RateLimit.Admit | lib/rate-limit.ts:9-22 | a call is allowed exactly when the entry is missing, expired or below the limit; a refusal keeps the entry; an admission counts 1 in a new window or one more in the old one |
| RateLimit.AdmitStartsWindow | lib/rate-limit.ts:9-15 | a missing or expired entry is admitted and starts a window of `windowMs` with count 1 |
| RateLimit.AdmitInsideWindow | lib/rate-limit.ts:17-22 | inside the window a call is refused exactly when the count has reached the limit; a refusal keeps the entry; an admission adds one and keeps the window end |
| RateLimit.AdmitKeepsBound | lib/rate-limit.ts:9-22 | with a limit of at least one, the stored count stays between 1 and the limit |
| RateLimit.Replay | lib/rate-limit.ts:5-23 | successive calls on one key give one answer per call |
| RateLimit.ReplayInsideWindow | lib/rate-limit.ts:17-22 | inside one window, an entry that has counted `c` calls admits exactly the next `limit - c` |
| RateLimit.FixedWindowBurst | lib/rate-limit.ts:5-23 | from a fresh key within one window the first `limit` calls (and always the first) are allowed and every later one is refused |
| RateLimit.DefaultBurst | lib/rate-limit.ts:5 | with the defaults of 10 calls per 60000 ms, a fresh key admits its first 10 calls within a minute and refuses the rest |
| RateLimit.RateLimiter.constructor | lib/rate-limit.ts:3 | the store starts empty |
| RateLimit.RateLimiter.CheckRateLimit | lib/rate-limit.ts:5-23 | the answer and the new entry are the admission decision on the old entry under the key; no other key changes |
| RateLimit.RateLimiter.GetRateLimitInfo | lib/rate-limit.ts:25-42 | none for a missing or expired entry; otherwise the window end and `max(0, 10 - count)` remaining, counted against 10 whatever limit was used |
| AnalysisPrompts.TrimStartKeeps | lib/prompts/analysis.ts:106 | trimming keeps a string that starts with a non-space |
| AnalysisPrompts.TrimBothLines | lib/prompts/analysis.ts:94-106 | trimming both accumulated lines drops only the final newline |
| AnalysisPrompts.TrimTextLine | lib/prompts/analysis.ts:94-106 | the trimmed text line alone is never empty |
| AnalysisPrompts.TrimImageLine | lib/prompts/analysis.ts:98-106 | the trimmed image line alone is the line without its newline |
| AnalysisPrompts.BuildInputContent | lib/prompts/analysis.ts:91-107 | the `+=` accumulation followed by the trim gives the case-by-case result |
| AnalysisPrompts.InputContentIsTrimmed | lib/prompts/analysis.ts:102-106 | the result is never empty and neither starts nor ends with whitespace |
| AnalysisPrompts.InputContentTextFirst | lib/prompts/analysis.ts:94-96 | the result leads with the text label exactly when `text` is truthy |
| AnalysisPrompts.InputContentPlaceholder | lib/prompts/analysis.ts:102-104 | the fixed sentence is the result exactly when neither field is truthy |
| AnalysisPrompts.InputContentImageLast | lib/prompts/analysis.ts:94-100 | with an image the image line comes last, after the whole text line |
| AnalysisPrompts.ReplaceFirstAfter | lib/prompts/analysis.ts:115-118 | a first-occurrence replace substitutes the first copy of the pattern and keeps both sides |
| AnalysisPrompts.TemplateSubstitution | lib/prompts/analysis.ts:115-118 | the template's single placeholder is replaced, and its surrounding text is kept |
| AnalysisPrompts.BuildAnalysisPrompt | lib/prompts/analysis.ts:112-119 | the prompt is the template text around the built input content |
| AnalyzeRoute.RouteInputContentLines | app/api/analyze/route.ts:25-28 | the content is empty exactly when no field is truthy; it leads with the text line exactly when `text` is truthy; the URL line follows the text line exactly when `url` is truthy, and otherwise the image part follows the text line directly; it ends with the image line when `image` is truthy; every line ends in a newline |
| AnalyzeRoute.LazyEnd | app/api/analyze/route.ts:88 | the lazy group ends at the first index where whitespace and three backticks follow |
| AnalyzeRoute.GroupStart | app/api/analyze/route.ts:88 | the group starts after `` ```json `` and its whitespace run |
| AnalyzeRoute.UnclosedFails | app/api/analyze/route.ts:88 | with no backticks after the first opening, the pattern matches nowhere |
| AnalyzeRoute.FenceSkipsToOpening | app/api/analyze/route.ts:88 | nothing matches before the first opening |
| AnalyzeRoute.FenceAtFirstClose | app/api/analyze/route.ts:88 | the group captured at an opening is the trimmed text up to the first closing backticks |
| AnalyzeRoute.FenceUnclosed | app/api/analyze/route.ts:88 | an opening with no closing backticks after it gives no match |
| AnalyzeRoute.FenceExtraction | app/api/analyze/route.ts:88 | the matcher agrees on every reply with the reference reading: the trimmed text between the first opening and the next three backticks |
| AnalyzeRoute.FenceNoOpening | app/api/analyze/route.ts:88 | a reply without an opening gives no match, as the reference reading says |
| AnalyzeRoute.GroupEnd | app/api/analyze/route.ts:88 | before the first closing backticks the lazy group stops where only whitespace is left, so it ends neither early nor with whitespace |
| AnalyzeRoute.FenceOpenUnclosed | app/api/analyze/route.ts:88 | a first opening without a later closing gives no match |
| AnalyzeRoute.FenceOpenClosed | app/api/analyze/route.ts:88 | a first opening closed at `q` captures the trimmed text between them |
| AnalyzeRoute.FallbackResult | app/api/analyze/route.ts:99-118 | the mock's problem is the request's text when it is truthy and `Uploaded content analysis` otherwise, so never empty; its knowledge map has exactly one learning step, numbered 1; its one dependency leads from `Problem Analysis` to `Solution Development` as a prerequisite |
| AnalyzeRoute.HandleReply | app/api/analyze/route.ts:73-122 | a thrown call gives 500; an empty reply gives 500 with its message; a fenced block gives its parse or 500; otherwise the whole reply's parse or the fallback built from `text`; the status is 200 or 500 |
| AnalyzeRoute.BuildRouteInput | app/api/analyze/route.ts:25-28 | the appends give the route's input lines |
| AnalyzeRoute.Post | app/api/analyze/route.ts:7-130 | an unreadable body gives 500 with no call; a missing or placeholder key gives 500 with no call; otherwise the model receives the inline prompt around the input lines and the reply is answered as above |
| ContactRoute.Response.Json | app/api/contact/route.ts:26-29 | a response carries its status, its body and the JSON content type |
| ContactRoute.SecuredSetsHeaders | app/api/contact/route.ts:7-16 | the seven headers take their fixed values, and every other header is kept as it was |
| ContactRoute.AddSecurityHeaders | app/api/contact/route.ts:7-16 | the headers are secured in place; the status and the body are unchanged |
| ContactRoute.Respond | app/api/contact/route.ts:26-30 | a fresh JSON response with the given status and body and the security headers |
| ContactRoute.ClientId | app/api/contact/route.ts:21-23 | the first truthy of `x-forwarded-for` and `x-real-ip`, else `unknown`; never empty |
| ContactRoute.EmailPatternCorrect | app/api/contact/route.ts:75-76 | the scanner accepts exactly the addresses of the pattern: allowed local characters, one `@`, a domain, a dot and at least two letters |
| ContactRoute.EmailPatternIsClean | app/api/contact/route.ts:75-76 | an accepted address has exactly one `@` and no markup character, backslash or `&` |
| ContactRoute.ValidationError | app/api/contact/route.ts:36-82 | the message of the first failing check, in the source's order: required fields, then the sanitized name, subject and message lengths, then the e-mail pattern; none exactly when all pass |
| ContactRoute.MessageHtmlOnlyBreaks | app/api/contact/route.ts:121 | in a sanitized message's HTML no newline remains, and every `<` starts a `<br>` |
| ContactRoute.MailFieldsClean | app/api/contact/route.ts:107-170 | every value put into the two mails of a valid submission is free of raw markup |
| ContactRoute.CheckFields | app/api/contact/route.ts:36-82 | the checks in sequence give the first failure's message |
| ContactRoute.HandleAdmitted | app/api/contact/route.ts:33-197 | an unreadable body gives 500 with the thrown message; a failed check gives 400 with its message; a missing mail configuration gives 500; otherwise both mails are sent and the answer is 200, or 500 with the transport's message |
| ContactRoute.Post | app/api/contact/route.ts:18-197 | the limiter is consulted with 3 calls per 5 minutes under the client id; a refusal gives 429 with no mails; every response carries the JSON type and the security headers |
| UseErrorModal.WithoutId | hooks/useErrorModal.ts:62 | the filter removes every entry with the identifier and keeps every other |
| UseErrorModal.WithoutIdAppend | hooks/useErrorModal.ts:62 | the filter distributes over concatenation, so the survivors keep their order |
| UseErrorModal.WithoutAbsentId | hooks/useErrorModal.ts:62 | dismissing an absent identifier leaves the list alone |
| UseErrorModal.DismissIdempotent | hooks/useErrorModal.ts:61-63 | dismissing twice is dismissing once |
| UseErrorModal.ShowThenDismiss | hooks/useErrorModal.ts:15-63 | dismissing the entry just shown, under a fresh identifier, restores the list |
| UseErrorModal.ErrorId | hooks/useErrorModal.ts:18 | the identifier starts with `error_` and ends with the random part |
| UseErrorModal.ErrorIdInjective | hooks/useErrorModal.ts:18 | equal identifiers come from equal clock readings and equal random parts |
| UseErrorModal.NewEntry | hooks/useErrorModal.ts:16-20 | the entry carries the given identifier and timestamp, and the caller's fields give back the input |
| UseErrorModal.ErrorModalState.constructor | hooks/useErrorModal.ts:10 | the list starts empty |
| UseErrorModal.ErrorModalState.ShowError | hooks/useErrorModal.ts:15-23 | the entry with identifier `error_<clock>_<random>` and the clock's timestamp is appended |
| UseErrorModal.ErrorModalState.ShowSimpleError | hooks/useErrorModal.ts:28-34 | an error entry with the given or default title is appended |
| UseErrorModal.ErrorModalState.ShowWarning | hooks/useErrorModal.ts:39-45 | a warning entry with the given or default title is appended |
| UseErrorModal.ErrorModalState.ShowSuccess | hooks/useErrorModal.ts:50-56 | a success entry with the given or default title is appended |
| UseErrorModal.ErrorModalState.DismissError | hooks/useErrorModal.ts:61-63 | the list becomes the filtered old list |
| UseErrorModal.ErrorModalState.ClearAllErrors | hooks/useErrorModal.ts:68-70 | the list becomes empty |
| UseErrorModal.ParseApiError | hooks/useErrorModal.ts:86-158 | the parsed error always has a non-empty title and message |
| UseErrorModal.OfflineIgnoresError | hooks/useErrorModal.ts:88-93 | offline, the answer is the connection error whatever the value holds |
| UseErrorModal.StatusTakesPrecedence | hooks/useErrorModal.ts:96-141 | online, a truthy status decides, with details `Status: <n>`; message, stack and name play no part |
| UseErrorModal.FixedStatusIgnoresBody | hooks/useErrorModal.ts:104-133 | 401, 403, 404, 429 and 500 give fixed texts whatever the body says |
| UseErrorModal.OtherStatusUsesBody | hooks/useErrorModal.ts:98-103 | 400 and the unlisted statuses show the body's truthy `error`, or else a fixed text |
| UseErrorModal.NoStatus | hooks/useErrorModal.ts:144-157 | without a status, a truthy message is shown under the generic title, with `name: message` as details exactly when there is a stack; otherwise the unknown error with the serialised value |
| UseContactForm.WithField | hooks/useContactForm.ts:28-31 | the named field takes the new value and the other three keep theirs |
| UseContactForm.SameFieldsSameData | hooks/useContactForm.ts:28-31 | form data is determined by its four fields, so the contract of `WithField` fixes its result |
| UseContactForm.ClientEmailCorrect | hooks/useContactForm.ts:57-58 | the scanner accepts exactly the addresses of the pattern: non-space text without `@` around a single `@`, with a dot after it that has text on both sides |
| UseContactForm.ClientCheck | hooks/useContactForm.ts:51-60 | the required-fields error exactly when a trimmed field is empty; otherwise the format error exactly when the pattern fails; none exactly when both pass |
| UseContactForm.ReplyError | hooks/useContactForm.ts:62-81 | no error exactly for an ok response; a rejected `fetch` or an unreadable error body throws its own message; a response that is not ok throws the server's `error` text when it is truthy and "Failed to send message" otherwise, so never an empty message |
| UseContactForm.ContactFormState.constructor | hooks/useContactForm.ts:9-19 | empty fields, not submitting, idle |
| UseContactForm.ContactFormState.HandleChange | hooks/useContactForm.ts:24-32 | only the named field changes |
| UseContactForm.ContactFormState.ResetForm | hooks/useContactForm.ts:37-40 | empty fields and the idle status |
| UseContactForm.ContactFormState.SubmitForm | hooks/useContactForm.ts:45-85 | a failed check throws its message without a request and leaves the fields; a sent form throws the rejection or the reply's error (else "Failed to send message") and keeps the fields with the error status; success resets the form to idle; the busy flag ends cleared |
| UseDragAndDrop.RoundedMegabytes | hooks/useDragAndDrop.ts:79 | the integer nearest to the size in mebibytes, halves rounding up |
| UseDragAndDrop.RoundedWholeMegabytes | hooks/useDragAndDrop.ts:79 | a whole number of mebibytes is printed as itself |
| UseDragAndDrop.DropCall | hooks/useDragAndDrop.ts:63-85 | no files run no callback; `onError` runs only when given and with a non-empty message; `onDrop` gets all the dropped files |
| UseDragAndDrop.DropCallCases | hooks/useDragAndDrop.ts:63-85 | `onDrop` gets the files exactly when there is a first file and it passes both checks; otherwise `onError`, when given, gets the message of the first failing check, the type check first |
| UseDragAndDrop.OnlyFirstFileChecked | hooks/useDragAndDrop.ts:70 | only the first file decides the outcome |
| UseDragAndDrop.DefaultsAccept | hooks/useDragAndDrop.ts:19 | without a type list and with the default limit, a file of exactly 10 MiB is accepted |
| UseDragAndDrop.DragState.constructor | hooks/useDragAndDrop.ts:22 | the zone starts inactive |
| UseDragAndDrop.DragState.HandleDrag | hooks/useDragAndDrop.ts:44-53 | enter and over activate the zone, leave deactivates it, and any other event leaves it unchanged |
| UseDragAndDrop.DragState.HandleDrop | hooks/useDragAndDrop.ts:58-86 | the zone is deactivated and the callback run is the drop decision |
| ShareButtons.SanitizeText | components/ShareButtons.tsx:23-25 | the output never grows and holds none of `<>"'&` |
| ShareButtons.SanitizeTextKeepsOrder | components/ShareButtons.tsx:24 | the output is a subsequence of the input |
| ShareButtons.SanitizeTextKeepsSafeChars | components/ShareButtons.tsx:24 | every other character keeps its number of occurrences, so only the five are deleted |
| ShareButtons.SanitizeTextFixesSafe | components/ShareButtons.tsx:24 | text without the five characters is returned unchanged |
| ShareButtons.SanitizeTextIdempotent | components/ShareButtons.tsx:24 | sanitizing twice equals sanitizing once |
| ShareButtons.SanitizeTextAppend | components/ShareButtons.tsx:24 | the deletion distributes over concatenation |
| ShareButtons.SomeSuffix | components/ShareButtons.tsx:12 | `some(endsWith)` holds exactly when some listed domain is a suffix of the host |
| ShareButtons.ValidateAndSanitizeUrl | components/ShareButtons.tsx:6-20 | null when parsing throws; non-null exactly when the host name ends with `twitter.com`, `x.com` or `social-plugins.line.me`, and then it is the parser's serialised URL |
| ShareButtons.SuffixAdmitsLookalikeHost | components/ShareButtons.tsx:10-14 | any host name ending in `x.com` passes, lookalikes included |
| ShareButtons.LookalikeIsNotSubdomain | components/ShareButtons.tsx:10-14 | `evilx.com` is neither `x.com` nor one of its subdomains |

## Left out

- User interface: the pages, the components' rendering, and the share buttons' click handlers (`navigator.share` and `window.open`) are presentation and I/O.
- External services are not modelled; their outcomes are parameters. These are the model call (`GoogleGenAI`), the nodemailer transport and `sendMail`, `fetch`, and the process environment.
- Library parsers: `JSON.parse` and the `URL` parser are partial functions passed in. `request.json()` is a value that is either readable or not.
- The general regular-expression engine is not modelled. Each pattern of the core is a hand-written scanner. JavaScript's `\s`/`trim` whitespace set is spelled out. The `i` flag is ASCII case folding.
- The `$` replacement patterns of `String.prototype.replace` are not modelled. `buildAnalysisPrompt`'s replace is a plain substitution.
- Strings are sequences of characters, not UTF-16 code units. Lengths of text outside the basic plane may differ from JavaScript's `length`.
- AnalysisPrompts.GetFallbackPrompt and AnalysisPrompts.GetSystemInstruction return fixed text; they carry no contract beyond their constants.
- ContactRoute.AdminMail and ContactRoute.UserMail model each mail's from, to and subject. Each HTML body is only its template name and the interpolated values, without the fixed markup.
- ContactRoute.Post: `Headers.set` normalises header names to lower case; the model keys headers by the names as written.
- ContactRoute.Post: each early return of the source builds its response and secures it. The model decides the status and body first, then builds and secures one response. The observable result is the same.
- ContactRoute.Post: body fields that are present but not strings are not modelled. A field is either absent or falsy, or else a string.
- ContactRoute.HandleAdmitted: when both mails fail, `Promise.all` rejects with the first rejection to settle. The model takes one failure message as an input.
- UseContactForm.ContactFormState.HandleChange: a change event may name a field outside the four form fields, and the spread would then add a property. The model admits only the four.
- UseContactForm.ContactFormState.SubmitForm: the intermediate `isSubmitting = true` and `idle` states between renders are not observable in the model; only the state after the call is stated.
- UseDragAndDrop.RoundedMegabytes: the size limit is an integer number of bytes; fractional limits are not modelled.
- UseErrorModal.ErrorId: the random base-36 part of the identifier is a parameter. Distinct clock readings or random parts give distinct identifiers, but two calls may draw the same pair, so uniqueness is not claimed.
- UseErrorModal.ParseApiError: `parseApiError(null)` throws when it reads `error.status`; the model's value always has the fields. A status that is a string such as `"404"` is truthy but matches no `case` of the strict `switch`, so it takes the default branch; statuses are integers in the model.
- UseErrorModal.NewEntry: the entry's `actions` is absent when the caller gives none; the model does not tell an absent list from an empty one.
- Utils.TruncateText: a fractional `maxLength` (for which `substring` rounds down) is not modelled; the limit is an integer.
- Utils.SetMember: assigning an object or `null` to `__proto__` changes the object's prototype. The model states only that no own property is added.
- Utils.StrictSanitizeInput: the sanitizer is not idempotent, so the model proves the counterexample rather than idempotence.
- Utils.StrictSanitizeInput: after sanitizing, scheme tokens such as `javascript:` or text such as `onerror=` can still be formed (for example from `javajavascript:script:`). The model states no absence property for them.
- Concurrency: requests on the shared rate-limit store are sequential calls on one `RateLimiter` object.
