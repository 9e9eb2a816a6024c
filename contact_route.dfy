/**
 * The contact endpoint of app/api/contact/route.ts.
 *
 * `POST` is a chain of early returns: the rate limit, the required fields,
 * the lengths of the sanitized name, subject and message, the e-mail pattern
 * and the mail configuration, each with its own status and message; then the
 * two mails go out. Every response it returns carries the same security
 * headers. The request headers, the parsed body, the environment, the clock
 * readings of the two mails and the outcome of sending them are parameters.
 */
module ContactRoute {
  import opened Common
  import opened Utils
  import opened Types
  import opened RateLimit

  // ---------------------------------------------------------------------------
  // Responses and their headers (lines 7-16)
  // ---------------------------------------------------------------------------

  /** The JSON body of a response: `{ error }` or `{ message }`. */
  datatype ContactReply = ErrorJson(error: string) | MessageJson(message: string)

  /** The header `NextResponse.json` starts with. */
  const JsonHeaders: map<string, string> := map["content-type" := "application/json"]

  /** The seven headers `addSecurityHeaders` sets. */
  const SecurityHeaders: map<string, string> := map[
    "X-Content-Type-Options" := "nosniff",
    "X-Frame-Options" := "DENY",
    "X-XSS-Protection" := "1; mode=block",
    "Referrer-Policy" := "strict-origin-when-cross-origin",
    "Cache-Control" := "no-store, no-cache, must-revalidate, proxy-revalidate",
    "Pragma" := "no-cache",
    "Expires" := "0"]

  /** A `NextResponse`: its status, JSON body and header list. */
  class Response {
    var status: int
    var body: ContactReply
    var headers: map<string, string>

    /** `NextResponse.json(body, { status })`. */
    constructor Json(body: ContactReply, status: int)
      ensures this.status == status && this.body == body && headers == JsonHeaders
    {
      this.status := status;
      this.body := body;
      headers := JsonHeaders;
    }
  }

  /** A header list after the seven `headers.set` calls of `addSecurityHeaders`, in order. */
  function Secured(h: map<string, string>): map<string, string> {
    h["X-Content-Type-Options" := "nosniff"]
     ["X-Frame-Options" := "DENY"]
     ["X-XSS-Protection" := "1; mode=block"]
     ["Referrer-Policy" := "strict-origin-when-cross-origin"]
     ["Cache-Control" := "no-store, no-cache, must-revalidate, proxy-revalidate"]
     ["Pragma" := "no-cache"]
     ["Expires" := "0"]
  }

  /** The seven calls set exactly the security headers, overriding any earlier
      value, and leave every other header alone. */
  lemma SecuredSetsHeaders(h: map<string, string>)
    ensures forall n :: n in SecurityHeaders ==> n in Secured(h) && Secured(h)[n] == SecurityHeaders[n]
    ensures forall n :: n !in SecurityHeaders ==> (n in Secured(h) <==> n in h)
    ensures forall n :: n !in SecurityHeaders && n in h ==> Secured(h)[n] == h[n]
  {
  }

  /** `addSecurityHeaders`: the header list is secured, and the status and the
      body are left alone. */
  method AddSecurityHeaders(response: Response)
    modifies response
    ensures response.headers == Secured(old(response.headers))
    ensures response.status == old(response.status) && response.body == old(response.body)
  {
    response.headers := response.headers["X-Content-Type-Options" := "nosniff"];
    response.headers := response.headers["X-Frame-Options" := "DENY"];
    response.headers := response.headers["X-XSS-Protection" := "1; mode=block"];
    response.headers := response.headers["Referrer-Policy" := "strict-origin-when-cross-origin"];
    response.headers := response.headers["Cache-Control" := "no-store, no-cache, must-revalidate, proxy-revalidate"];
    response.headers := response.headers["Pragma" := "no-cache"];
    response.headers := response.headers["Expires" := "0"];
  }

  /** A JSON response with the security headers, as every return of `POST` builds it. */
  method Respond(body: ContactReply, status: int) returns (response: Response)
    ensures fresh(response)
    ensures response.status == status && response.body == body
    ensures response.headers == Secured(JsonHeaders)
  {
    response := new Response.Json(body, status);
    AddSecurityHeaders(response);
  }

  // ---------------------------------------------------------------------------
  // The client identifier and the limit (lines 21-31)
  // ---------------------------------------------------------------------------

  /** The window of the contact form: 3 calls per 5 minutes. */
  const ContactLimit := 3
  const ContactWindowMs := 300000

  const RateLimitMessage := "Rate limit exceeded. Please try again later."

  /** `x-forwarded-for || x-real-ip || 'unknown'`: the first truthy header
      wins, and the identifier is never empty. */
  function ClientId(forwardedFor: Option<string>, realIp: Option<string>): (id: string)
    ensures id != []
    ensures Truthy(forwardedFor) ==> id == forwardedFor.value
    ensures !Truthy(forwardedFor) && Truthy(realIp) ==> id == realIp.value
    ensures !Truthy(forwardedFor) && !Truthy(realIp) ==> id == "unknown"
  {
    if Truthy(forwardedFor) then forwardedFor.value
    else if Truthy(realIp) then realIp.value
    else "unknown"
  }

  // ---------------------------------------------------------------------------
  // The body and the thrown values (lines 33, 183-196)
  // ---------------------------------------------------------------------------

  /** A thrown value: an `Error` with its message, or anything else. */
  datatype Thrown = ThrownError(message: string) | ThrownOther

  /** The four destructured fields; an absent or null field is `None`. */
  datatype ContactFields = ContactFields(
    name: Option<string>,
    email: Option<string>,
    subject: Option<string>,
    message: Option<string>)

  /** The outcome of `await request.json()` and its destructuring. */
  datatype BodyRead = Unreadable(thrown: Thrown) | Read(fields: ContactFields)

  /** The message of the catch branch. */
  function CatchMessage(e: Thrown): string {
    match e
    case ThrownError(m) => m
    case ThrownOther => "Failed to send message"
  }

  // ---------------------------------------------------------------------------
  // The e-mail pattern /^[a-zA-Z0-9._%+-]+@[a-zA-Z0-9.-]+\.[a-zA-Z]{2,}$/ (line 75)
  // ---------------------------------------------------------------------------

  predicate IsLocalChar(c: char) {
    IsAsciiLetter(c) || IsDigit(c) || c == '.' || c == '_' || c == '%' || c == '+' || c == '-'
  }

  predicate IsDomainChar(c: char) {
    IsAsciiLetter(c) || IsDigit(c) || c == '.' || c == '-'
  }

  predicate LocalRange(e: string, lo: nat, hi: nat)
    requires lo <= hi <= |e|
  {
    forall k :: lo <= k < hi ==> IsLocalChar(e[k])
  }

  predicate DomainRange(e: string, lo: nat, hi: nat)
    requires lo <= hi <= |e|
  {
    forall k :: lo <= k < hi ==> IsDomainChar(e[k])
  }

  predicate LetterRange(e: string, lo: nat, hi: nat)
    requires lo <= hi <= |e|
  {
    forall k :: lo <= k < hi ==> IsAsciiLetter(e[k])
  }

  /** The reference reading of the pattern: a non-empty local part, `@`, a
      non-empty domain part, a dot and at least two letters, at `i` and `p`. */
  predicate EmailSplit(e: string, i: nat, p: nat) {
    0 < i && i + 1 < p && p + 3 <= |e| && e[i] == '@' && e[p] == '.' &&
    LocalRange(e, 0, i) && DomainRange(e, i + 1, p) && LetterRange(e, p + 1, |e|)
  }

  ghost predicate EmailShape(e: string) {
    exists i: nat, p: nat :: EmailSplit(e, i, p)
  }

  /** `emailRegex.test(email)`, as a scanner: the local part ends at the first
      `@` and the top-level domain starts after the last dot. */
  function EmailPatternTest(e: string): bool {
    match IndexOfChar(e, '@', 0)
    case None => false
    case Some(i) =>
      match LastIndexOfChar(e, '.')
      case None => false
      case Some(p) => EmailSplit(e, i, p)
  }

  /** The scanner accepts exactly the addresses the pattern describes. */
  lemma EmailPatternCorrect(e: string)
    ensures EmailPatternTest(e) <==> EmailShape(e)
  {
    if EmailShape(e) {
      var i: nat, p: nat :| EmailSplit(e, i, p);
      var i' := IndexOfChar(e, '@', 0);
      var p' := LastIndexOfChar(e, '.');
      assert i'.Some? && i'.value == i;
      assert p'.Some? && p'.value == p;
    }
  }

  /** An address the pattern accepts holds exactly one `@` and none of the
      characters the sanitizers escape. */
  lemma EmailPatternIsClean(e: string)
    requires EmailPatternTest(e)
    ensures forall k :: 0 <= k < |e| ==> !IsMarkupChar(e[k]) && e[k] != '\\' && e[k] != '&'
    ensures forall k :: 0 <= k < |e| && e[k] == '@' ==> k == IndexOfChar(e, '@', 0).value
  {
    var i := IndexOfChar(e, '@', 0).value;
    var p := LastIndexOfChar(e, '.').value;
    forall k | 0 <= k < |e| ensures !IsMarkupChar(e[k]) && e[k] != '\\' && e[k] != '&' && (e[k] == '@' ==> k == i) {
      if k < i {
        assert IsLocalChar(e[k]);
      } else if i < k < p {
        assert IsDomainChar(e[k]);
      } else if p < k {
        assert IsAsciiLetter(e[k]);
      }
    }
  }

  // ---------------------------------------------------------------------------
  // Validation (lines 36-82)
  // ---------------------------------------------------------------------------

  const RequiredMessage := "All fields are required"
  const NameLengthMessage := "Name must be between 1 and 100 characters"
  const SubjectLengthMessage := "Subject must be between 1 and 200 characters"
  const MessageLengthMessage := "Message must be between 1 and 2000 characters"
  const EmailFormatMessage := "Invalid email format"

  predicate AllPresent(f: ContactFields) {
    Truthy(f.name) && Truthy(f.email) && Truthy(f.subject) && Truthy(f.message)
  }

  /** A sanitized field within its bounds. */
  predicate LengthOk(s: string, max: nat) {
    1 <= |s| <= max
  }

  predicate NameOk(f: ContactFields)
    requires AllPresent(f)
  {
    LengthOk(StrictSanitizeInput(f.name.value), 100)
  }

  predicate SubjectOk(f: ContactFields)
    requires AllPresent(f)
  {
    LengthOk(StrictSanitizeInput(f.subject.value), 200)
  }

  predicate MessageOk(f: ContactFields)
    requires AllPresent(f)
  {
    LengthOk(StrictSanitizeInput(f.message.value), 2000)
  }

  /** The message of the first failing check, in the source's order: the
      required fields, then the sanitized name, subject and message lengths,
      then the raw e-mail; `None` when all pass. */
  function ValidationError(f: ContactFields): (r: Option<string>)
    ensures r.None? <==>
      AllPresent(f) && NameOk(f) && SubjectOk(f) && MessageOk(f) && EmailPatternTest(f.email.value)
    ensures r == Some(RequiredMessage) <==> !AllPresent(f)
    ensures r == Some(NameLengthMessage) <==> AllPresent(f) && !NameOk(f)
    ensures r == Some(SubjectLengthMessage) <==> AllPresent(f) && NameOk(f) && !SubjectOk(f)
    ensures r == Some(MessageLengthMessage) <==>
      AllPresent(f) && NameOk(f) && SubjectOk(f) && !MessageOk(f)
    ensures r == Some(EmailFormatMessage) <==>
      AllPresent(f) && NameOk(f) && SubjectOk(f) && MessageOk(f) && !EmailPatternTest(f.email.value)
  {
    if !AllPresent(f) then Some(RequiredMessage)
    else if !NameOk(f) then Some(NameLengthMessage)
    else if !SubjectOk(f) then Some(SubjectLengthMessage)
    else if !MessageOk(f) then Some(MessageLengthMessage)
    else if !EmailPatternTest(f.email.value) then Some(EmailFormatMessage)
    else None
  }

  // ---------------------------------------------------------------------------
  // The two mails (lines 84-176)
  // ---------------------------------------------------------------------------

  const ConfigMessage :=
    "Email configuration is missing. Please check EMAIL_USER and EMAIL_PASS environment variables."

  const SuccessMessage := "Message sent successfully"

  predicate MailConfigured(emailUser: Option<string>, emailPass: Option<string>) {
    Truthy(emailUser) && Truthy(emailPass)
  }

  /** The HTML body of a mail: which of the two templates, with the values
      put into it. The fixed markup around the values is not modelled. */
  datatype MailHtml =
    | AdminNotice(name: string, email: string, subject: string, messageHtml: string, stamp: string)
    | UserConfirmation(name: string, subject: string, messageHtml: string, stamp: string)

  /** The options handed to `sendMail`. */
  datatype MailOptions = MailOptions(from: string, to: string, subject: string, html: MailHtml)

  /** `sanitizedMessage.replace(/\n/g, '<br>')`. */
  function MessageHtml(sanitizedMessage: string): string {
    ReplaceChar(sanitizedMessage, '\n', "<br>")
  }

  /** In the markup-free text of a sanitized message, every `<` of its HTML
      form starts a `<br>` that replaced a line break, and no line break is left. */
  lemma {:induction false} MessageHtmlOnlyBreaks(s: string)
    requires forall k :: 0 <= k < |s| ==> !IsMarkupChar(s[k])
    ensures forall k :: 0 <= k < |MessageHtml(s)| ==> MessageHtml(s)[k] != '\n'
    ensures forall k :: 0 <= k < |MessageHtml(s)| && MessageHtml(s)[k] == '<' ==>
      OccursAt(MessageHtml(s), "<br>", k)
  {
    if s != [] {
      var head := if s[0] == '\n' then "<br>" else [s[0]];
      var rest := MessageHtml(s[1..]);
      MessageHtmlOnlyBreaks(s[1..]);
      assert MessageHtml(s) == head + rest;
      forall k | 0 <= k < |head + rest|
        ensures (head + rest)[k] != '\n'
        ensures (head + rest)[k] == '<' ==> OccursAt(head + rest, "<br>", k)
      {
        if k < |head| {
          if s[0] == '\n' {
            assert (head + rest)[0..4] == "<br>";
          }
        } else {
          assert (head + rest)[k] == rest[k - |head|];
          if rest[k - |head|] == '<' {
            assert (head + rest)[k..k + 4] == rest[k - |head|..k - |head| + 4];
          }
        }
      }
    }
  }

  /** The notification, from and to the administrator's own address (lines 107-130). */
  function AdminMail(user: string, name: string, email: string, subject: string, message: string, stamp: string): MailOptions {
    MailOptions(user, user, "[CAN_I_DO_THIS?? Contact] " + subject,
      AdminNotice(name, email, subject, MessageHtml(message), stamp))
  }

  /** The confirmation to the sender's address (lines 133-170). */
  function UserMail(user: string, name: string, email: string, subject: string, message: string, stamp: string): MailOptions {
    MailOptions(user, email, "[CAN_I_DO_THIS??] お問い合わせを受け付けました",
      UserConfirmation(name, subject, MessageHtml(message), stamp))
  }

  /** The two mails of a valid submission, built from the sanitized fields and
      the raw address. */
  function Mails(f: ContactFields, user: string, adminStamp: string, userStamp: string): seq<MailOptions>
    requires AllPresent(f)
  {
    var name := StrictSanitizeInput(f.name.value);
    var subject := StrictSanitizeInput(f.subject.value);
    var message := StrictSanitizeInput(f.message.value);
    [AdminMail(user, name, f.email.value, subject, message, adminStamp),
     UserMail(user, name, f.email.value, subject, message, userStamp)]
  }

  /** Every value interpolated into the mails of a valid submission is free of
      markup characters, except the `<br>` tags that stand for line breaks. */
  lemma MailFieldsClean(f: ContactFields)
    requires ValidationError(f).None?
    ensures forall k :: 0 <= k < |f.email.value| ==> !IsMarkupChar(f.email.value[k])
    ensures var n := StrictSanitizeInput(f.name.value);
      forall k :: 0 <= k < |n| ==> !IsMarkupChar(n[k])
    ensures var s := StrictSanitizeInput(f.subject.value);
      forall k :: 0 <= k < |s| ==> !IsMarkupChar(s[k])
    ensures var h := MessageHtml(StrictSanitizeInput(f.message.value));
      forall k :: 0 <= k < |h| && h[k] == '<' ==> OccursAt(h, "<br>", k)
  {
    EmailPatternIsClean(f.email.value);
    MessageHtmlOnlyBreaks(StrictSanitizeInput(f.message.value));
  }

  // ---------------------------------------------------------------------------
  // POST (lines 18-198)
  // ---------------------------------------------------------------------------

  /** Whether the contact limit admits the call that finds `entry`. */
  function Admitted(entry: Option<RateLimitEntry>, now: int): bool {
    Admit(entry, ContactLimit, ContactWindowMs, now).allowed
  }

  /** The answer to an admitted call, by the first check that fails: an
      unreadable body reaches the catch; a validation failure is a 400 with its
      message; a missing mail configuration is a 500; otherwise the two mails
      are handed over, and a rejection of either reaches the catch. */
  predicate Answers(status: int, body: ContactReply, mails: seq<MailOptions>, read: BodyRead,
                    emailUser: Option<string>, emailPass: Option<string>,
                    adminStamp: string, userStamp: string, mailFailure: Option<Thrown>)
  {
    match read
    case Unreadable(e) =>
      status == 500 && body == ErrorJson(CatchMessage(e)) && mails == []
    case Read(f) =>
      match ValidationError(f)
      case Some(m) => status == 400 && body == ErrorJson(m) && mails == []
      case None =>
        if !MailConfigured(emailUser, emailPass) then
          status == 500 && body == ErrorJson(ConfigMessage) && mails == []
        else
          mails == Mails(f, emailUser.value, adminStamp, userStamp) &&
          match mailFailure
          case None => status == 200 && body == MessageJson(SuccessMessage)
          case Some(e) => status == 500 && body == ErrorJson(CatchMessage(e))
  }

  /** The checks of lines 36-82, one after the other, on the read fields. */
  method CheckFields(f: ContactFields) returns (error: Option<string>)
    ensures error == ValidationError(f)
  {
    if !Truthy(f.name) || !Truthy(f.email) || !Truthy(f.subject) || !Truthy(f.message) {
      return Some(RequiredMessage);
    }
    var sanitizedName := StrictSanitizeInput(f.name.value);
    var sanitizedSubject := StrictSanitizeInput(f.subject.value);
    var sanitizedMessage := StrictSanitizeInput(f.message.value);
    if |sanitizedName| < 1 || |sanitizedName| > 100 {
      return Some(NameLengthMessage);
    }
    if |sanitizedSubject| < 1 || |sanitizedSubject| > 200 {
      return Some(SubjectLengthMessage);
    }
    if |sanitizedMessage| < 1 || |sanitizedMessage| > 2000 {
      return Some(MessageLengthMessage);
    }
    if !EmailPatternTest(f.email.value) {
      return Some(EmailFormatMessage);
    }
    return None;
  }

  /** Lines 33-196 once the limit has admitted the call: the status and the
      body of the response every branch builds, and the mails handed over. */
  method HandleAdmitted(read: BodyRead, emailUser: Option<string>, emailPass: Option<string>,
                        adminStamp: string, userStamp: string, mailFailure: Option<Thrown>)
    returns (status: int, body: ContactReply, mails: seq<MailOptions>)
    ensures Answers(status, body, mails, read, emailUser, emailPass, adminStamp, userStamp, mailFailure)
  {
    mails := [];
    if read.Unreadable? {
      return 500, ErrorJson(CatchMessage(read.thrown)), [];
    }
    var f := read.fields;
    var error := CheckFields(f);
    if error.Some? {
      return 400, ErrorJson(error.value), [];
    }
    if !Truthy(emailUser) || !Truthy(emailPass) {
      return 500, ErrorJson(ConfigMessage), [];
    }
    mails := Mails(f, emailUser.value, adminStamp, userStamp);
    if mailFailure.Some? {
      return 500, ErrorJson(CatchMessage(mailFailure.value)), mails;
    }
    return 200, MessageJson(SuccessMessage), mails;
  }

  /** `POST` on the shared `limiter` at clock reading `now`. `mailFailure` is
      what `Promise.all` of the two `sendMail` calls rejects with, if anything;
      `mails` is what was handed to `sendMail`. */
  method Post(limiter: RateLimiter, now: int, forwardedFor: Option<string>, realIp: Option<string>,
              read: BodyRead, emailUser: Option<string>, emailPass: Option<string>,
              adminStamp: string, userStamp: string, mailFailure: Option<Thrown>)
    returns (response: Response, mails: seq<MailOptions>)
    modifies limiter
    ensures fresh(response)
    // every response carries the security headers
    ensures response.headers == Secured(JsonHeaders)
    // the call is counted against the client, whatever follows
    ensures var key := Key(ClientId(forwardedFor, realIp));
      limiter.store == old(limiter.store)[key := Admit(old(limiter.Lookup(key)), ContactLimit, ContactWindowMs, now).entry]
    // refused by the limit: 429 before the body is read
    ensures !Admitted(old(limiter.Lookup(Key(ClientId(forwardedFor, realIp)))), now) ==>
      response.status == 429 && response.body == ErrorJson(RateLimitMessage) && mails == []
    ensures Admitted(old(limiter.Lookup(Key(ClientId(forwardedFor, realIp)))), now) ==>
      Answers(response.status, response.body, mails, read, emailUser, emailPass, adminStamp, userStamp, mailFailure)
  {
    var clientIP := ClientId(forwardedFor, realIp);
    var allowed := limiter.CheckRateLimit(clientIP, ContactLimit, ContactWindowMs, now);
    if !allowed {
      response := Respond(ErrorJson(RateLimitMessage), 429);
      mails := [];
      return;
    }
    var status, body;
    status, body, mails := HandleAdmitted(read, emailUser, emailPass, adminStamp, userStamp, mailFailure);
    response := Respond(body, status);
  }
}
