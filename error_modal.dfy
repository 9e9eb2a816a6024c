/**
 * The error list of hooks/useErrorModal.ts and its `parseApiError`.
 *
 * The hook's `errors` state becomes the field of an `ErrorModalState` object;
 * each callback is a method that replaces the list as the hook's `setErrors`
 * does. `Date.now()` and the random part of the identifier are parameters.
 */
module UseErrorModal {
  import opened Common
  import opened Types

  // ---------------------------------------------------------------------------
  // The list operations (lines 15-70)
  // ---------------------------------------------------------------------------

  /** What `showError` is given: an entry without its `id` and `timestamp`. */
  datatype ErrorInput = ErrorInput(
    kind: ErrorType,
    title: string,
    message: string,
    details: Option<string>,
    actions: seq<ErrorAction>)

  /** `error_${Date.now()}_${random}`, where `random` is the at most nine
      base-36 characters `Math.random().toString(36).substr(2, 9)` draws. The
      identifier starts with `error_`, ends with the random part, and the
      clock's digits between them contain no `_`. */
  function ErrorId(clock: int, random: string): (r: string)
    ensures 7 + |random| < |r| && r[..6] == "error_" && r[|r| - |random|..] == random
  {
    "error_" + IntToString(clock) + "_" + random
  }

  /** The identifier gives back its clock reading and random part: two
      identifiers are equal only when both parts are. */
  lemma ErrorIdInjective(c1: int, r1: string, c2: int, r2: string)
    requires ErrorId(c1, r1) == ErrorId(c2, r2)
    ensures c1 == c2 && r1 == r2
  {
    var a, b := IntToString(c1), IntToString(c2);
    var t := ErrorId(c1, r1)[6..];
    assert t == a + "_" + r1 == b + "_" + r2;
    FirstUnderscore(a, r1);
    FirstUnderscore(b, r2);
    assert |a| == |b|;
    assert a == t[..|a|] == b;
    IntToStringInjective(c1, c2);
    assert r1 == t[|a| + 1..] == r2;
  }

  /** The first `_` of a printed integer followed by `_` is that separator. */
  lemma FirstUnderscore(a: string, r: string)
    requires forall k :: 0 <= k < |a| ==> IsDigit(a[k]) || a[k] == '-'
    ensures IndexOfChar(a + "_" + r, '_', 0) == Some(|a|)
  {
    var t := a + "_" + r;
    assert t[|a|] == '_';
    assert forall k :: 0 <= k < |a| ==> t[k] == a[k];
  }

  /** The input an entry was built from. */
  function EntryInput(d: ErrorModalData): ErrorInput {
    ErrorInput(d.kind, d.title, d.message, d.details, d.actions)
  }

  /** The entry `showError` appends: the caller's fields with the identifier
      and the timestamp added. */
  function NewEntry(e: ErrorInput, id: string, timestamp: int): (r: ErrorModalData)
    ensures r.id == id && r.timestamp == timestamp && EntryInput(r) == e
  {
    ErrorModalData(id, e.kind, e.title, e.message, e.details, timestamp, e.actions)
  }

  /** `prev.filter(error => error.id !== id)`. */
  function WithoutId(s: seq<ErrorModalData>, id: string): (r: seq<ErrorModalData>)
    ensures |r| <= |s|
    ensures forall k :: 0 <= k < |r| ==> r[k].id != id
    ensures forall x :: x in r <==> x in s && x.id != id
  {
    if s == [] then []
    else if s[0].id != id then [s[0]] + WithoutId(s[1..], id)
    else WithoutId(s[1..], id)
  }

  /** Filtering distributes over concatenation: the survivors keep their order. */
  lemma {:induction false} WithoutIdAppend(a: seq<ErrorModalData>, b: seq<ErrorModalData>, id: string)
    ensures WithoutId(a + b, id) == WithoutId(a, id) + WithoutId(b, id)
  {
    if a == [] {
      assert a + b == b;
    } else {
      assert (a + b)[1..] == a[1..] + b;
      WithoutIdAppend(a[1..], b, id);
    }
  }

  /** A list without the identifier is left as it is. */
  lemma {:induction false} WithoutAbsentId(s: seq<ErrorModalData>, id: string)
    requires forall k :: 0 <= k < |s| ==> s[k].id != id
    ensures WithoutId(s, id) == s
  {
    if s != [] {
      WithoutAbsentId(s[1..], id);
    }
  }

  /** Dismissing twice is dismissing once. */
  lemma DismissIdempotent(s: seq<ErrorModalData>, id: string)
    ensures WithoutId(WithoutId(s, id), id) == WithoutId(s, id)
  {
    WithoutAbsentId(WithoutId(s, id), id);
  }

  /** Dismissing the entry just shown, under an identifier no earlier entry
      has, gives back the list from before. */
  lemma ShowThenDismiss(s: seq<ErrorModalData>, e: ErrorModalData)
    requires forall k :: 0 <= k < |s| ==> s[k].id != e.id
    ensures WithoutId(s + [e], e.id) == s
  {
    WithoutIdAppend(s, [e], e.id);
    WithoutAbsentId(s, e.id);
    assert WithoutId([e], e.id) == WithoutId([], e.id) == [];
  }

  const DefaultErrorTitle := "エラーが発生しました"
  const DefaultWarningTitle := "警告"
  const DefaultSuccessTitle := "成功"

  /** `value || default`: a falsy string gives way to the default. */
  function OrDefault(value: Option<string>, default: string): (t: string)
    ensures Truthy(value) ==> t == value.value
    ensures !Truthy(value) ==> t == default
  {
    if Truthy(value) then value.value else default
  }

  /** The `errors` state of the hook. */
  class ErrorModalState {
    var errors: seq<ErrorModalData>

    constructor()
      ensures errors == []
    {
      errors := [];
    }

    /** `showError`: the new entry, with its identifier and the clock reading
        `now`, goes at the end; the earlier entries stay in order. */
    method ShowError(e: ErrorInput, clock: int, random: string, now: int)
      modifies this
      ensures errors == old(errors) + [NewEntry(e, ErrorId(clock, random), now)]
    {
      var newError := NewEntry(e, ErrorId(clock, random), now);
      errors := errors + [newError];
    }

    /** `showSimpleError(message, title)`: an error entry with the default title. */
    method ShowSimpleError(message: string, title: Option<string>, clock: int, random: string, now: int)
      modifies this
      ensures errors == old(errors) +
        [NewEntry(ErrorInput(Error, OrDefault(title, DefaultErrorTitle), message, None, []), ErrorId(clock, random), now)]
    {
      ShowError(ErrorInput(Error, OrDefault(title, DefaultErrorTitle), message, None, []), clock, random, now);
    }

    /** `showWarning(message, title)`: a warning entry with the default title. */
    method ShowWarning(message: string, title: Option<string>, clock: int, random: string, now: int)
      modifies this
      ensures errors == old(errors) +
        [NewEntry(ErrorInput(Warning, OrDefault(title, DefaultWarningTitle), message, None, []), ErrorId(clock, random), now)]
    {
      ShowError(ErrorInput(Warning, OrDefault(title, DefaultWarningTitle), message, None, []), clock, random, now);
    }

    /** `showSuccess(message, title)`: a success entry with the default title. */
    method ShowSuccess(message: string, title: Option<string>, clock: int, random: string, now: int)
      modifies this
      ensures errors == old(errors) +
        [NewEntry(ErrorInput(Success, OrDefault(title, DefaultSuccessTitle), message, None, []), ErrorId(clock, random), now)]
    {
      ShowError(ErrorInput(Success, OrDefault(title, DefaultSuccessTitle), message, None, []), clock, random, now);
    }

    /** `dismissError(id)`: every entry with the identifier goes, the rest stay in order. */
    method DismissError(id: string)
      modifies this
      ensures errors == WithoutId(old(errors), id)
    {
      errors := WithoutId(errors, id);
    }

    /** `clearAllErrors()`. */
    method ClearAllErrors()
      modifies this
      ensures errors == []
    {
      errors := [];
    }
  }

  // ---------------------------------------------------------------------------
  // parseApiError (lines 86-158)
  // ---------------------------------------------------------------------------

  /** The fields of the thrown or returned value that `parseApiError` reads.
      A number is truthy when it is not 0; `name` is rendered `undefined` when
      absent; `serialized` is what `JSON.stringify(error, null, 2)` gives. */
  datatype ApiError = ApiError(
    status: Option<int>,
    error: Option<string>,
    message: Option<string>,
    stack: Option<string>,
    name: Option<string>,
    serialized: Option<string>)

  datatype ParsedError = ParsedError(title: string, message: string, details: Option<string>)

  const OfflineTitle := "接続エラー"
  const OfflineMessage := "インターネット接続を確認してください。"
  const BadRequestTitle := "入力エラー"
  const BadRequestMessage := "入力内容を確認してください。"
  const UnauthorizedTitle := "認証エラー"
  const UnauthorizedMessage := "認証が必要です。ページを再読み込みしてください。"
  const ForbiddenTitle := "アクセス拒否"
  const ForbiddenMessage := "この操作を実行する権限がありません。"
  const NotFoundTitle := "リソースが見つかりません"
  const NotFoundMessage := "要求されたリソースが存在しません。"
  const RateLimitedTitle := "レート制限"
  const RateLimitedMessage := "リクエストが多すぎます。しばらく待ってから再試行してください。"
  const ServerErrorTitle := "サーバーエラー"
  const ServerErrorMessage := "サーバーで問題が発生しました。しばらく待ってから再試行してください。"
  const OtherStatusMessage := "予期しないエラーが発生しました。"
  const UnknownTitle := "不明なエラー"
  const UnknownMessage := "予期しないエラーが発生しました。ページを再読み込みしてください。"

  predicate HasStatus(e: ApiError) {
    e.status.Some? && e.status.value != 0
  }

  /** The statuses with a fixed title and message. */
  predicate FixedStatus(n: int) {
    n == 401 || n == 403 || n == 404 || n == 429 || n == 500
  }

  function StatusDetails(n: int): string {
    "Status: " + IntToString(n)
  }

  /** The `switch (error.status)` of lines 97-140. */
  function ForStatus(n: int, e: ApiError): ParsedError {
    if n == 400 then ParsedError(BadRequestTitle, OrDefault(e.error, BadRequestMessage), Some(StatusDetails(n)))
    else if n == 401 then ParsedError(UnauthorizedTitle, UnauthorizedMessage, Some(StatusDetails(n)))
    else if n == 403 then ParsedError(ForbiddenTitle, ForbiddenMessage, Some(StatusDetails(n)))
    else if n == 404 then ParsedError(NotFoundTitle, NotFoundMessage, Some(StatusDetails(n)))
    else if n == 429 then ParsedError(RateLimitedTitle, RateLimitedMessage, Some(StatusDetails(n)))
    else if n == 500 then ParsedError(ServerErrorTitle, ServerErrorMessage, Some(StatusDetails(n)))
    else ParsedError(DefaultErrorTitle, OrDefault(e.error, OtherStatusMessage), Some(StatusDetails(n)))
  }

  /** `${error.name}`: an absent name is rendered `undefined`, an empty one as nothing. */
  function NameText(name: Option<string>): string {
    if name.Some? then name.value else "undefined"
  }

  /** `parseApiError(error)`, with `navigator.onLine` as `online`. The modal
      always has a title and a message to show. */
  function ParseApiError(online: bool, e: ApiError): (r: ParsedError)
    ensures r.title != [] && r.message != []
  {
    if !online then ParsedError(OfflineTitle, OfflineMessage, None)
    else if HasStatus(e) then ForStatus(e.status.value, e)
    else if Truthy(e.message) then
      ParsedError(DefaultErrorTitle, e.message.value,
        if Truthy(e.stack) then Some(NameText(e.name) + ": " + e.message.value) else None)
    else ParsedError(UnknownTitle, UnknownMessage, e.serialized)
  }

  /** Offline, the answer is the connection error whatever the value holds. */
  lemma OfflineIgnoresError(e: ApiError)
    ensures ParseApiError(false, e) == ParsedError(OfflineTitle, OfflineMessage, None)
  {
  }

  /** Online, a truthy status decides alone: the message, stack and name do not
      matter, and the details name the status. */
  lemma StatusTakesPrecedence(e: ApiError, e': ApiError)
    requires HasStatus(e) && e'.status == e.status && e'.error == e.error
    ensures ParseApiError(true, e) == ParseApiError(true, e')
    ensures ParseApiError(true, e).details == Some(StatusDetails(e.status.value))
  {
  }

  /** The listed statuses map to fixed texts, whatever the body's `error` says. */
  lemma FixedStatusIgnoresBody(e: ApiError, e': ApiError)
    requires HasStatus(e) && FixedStatus(e.status.value) && e'.status == e.status
    ensures ParseApiError(true, e) == ParseApiError(true, e')
  {
  }

  /** 400 and the unlisted statuses pass the body's `error` through when it is
      truthy, and use a fixed text otherwise. */
  lemma OtherStatusUsesBody(e: ApiError)
    requires HasStatus(e) && !FixedStatus(e.status.value)
    ensures ParseApiError(true, e).message ==
      OrDefault(e.error, if e.status.value == 400 then BadRequestMessage else OtherStatusMessage)
    ensures ParseApiError(true, e).title ==
      (if e.status.value == 400 then BadRequestTitle else DefaultErrorTitle)
  {
  }

  /** Without a status, a truthy message is shown under the generic title,
      with `name: message` as details exactly when there is a stack;
      otherwise the unknown-error fallback carries the serialized value. */
  lemma NoStatus(e: ApiError)
    requires !HasStatus(e)
    ensures Truthy(e.message) ==>
      ParseApiError(true, e).title == DefaultErrorTitle && ParseApiError(true, e).message == e.message.value
    ensures Truthy(e.message) ==> (ParseApiError(true, e).details.Some? <==> Truthy(e.stack))
    ensures Truthy(e.message) && Truthy(e.stack) && e.name.Some? ==>
      ParseApiError(true, e).details == Some(e.name.value + ": " + e.message.value)
    ensures !Truthy(e.message) ==> ParseApiError(true, e) == ParsedError(UnknownTitle, UnknownMessage, e.serialized)
  {
  }
}
