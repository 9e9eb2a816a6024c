/**
 * Shared vocabulary of the model: an Option type, the JavaScript string
 * primitives the sources rely on (`\s` and `trim`, `indexOf`/`includes`,
 * `toLowerCase` on ASCII letters, `endsWith`, `join`, number-to-string),
 * order-preserving subsequences, and parsed JSON values.
 */
module Common {

  datatype Option<+T> = None | Some(value: T)

  // ---------------------------------------------------------------------------
  // Whitespace and trim
  // ---------------------------------------------------------------------------

  /** The code points JavaScript counts as WhiteSpace or LineTerminator: the set
      matched by `\s` and removed by `String.prototype.trim`. */
  predicate IsSpace(c: char) {
    c == '\t' || c == '\n' || c == '\U{000B}' || c == '\U{000C}' || c == '\r' || c == ' '
    || c == '\U{00A0}' || c == '\U{1680}' || ('\U{2000}' <= c <= '\U{200A}')
    || c == '\U{2028}' || c == '\U{2029}' || c == '\U{202F}' || c == '\U{205F}'
    || c == '\U{3000}' || c == '\U{FEFF}'
  }

  predicate AllSpace(s: string) {
    forall i :: 0 <= i < |s| ==> IsSpace(s[i])
  }

  /** Removes leading whitespace: the result is the longest suffix that does not
      start with whitespace, and everything dropped is whitespace. */
  function TrimStart(s: string): (r: string)
    ensures |r| <= |s| && r == s[|s| - |r|..]
    ensures AllSpace(s[..|s| - |r|])
    ensures r == [] || !IsSpace(r[0])
  {
    if s != [] && IsSpace(s[0]) then TrimStart(s[1..]) else s
  }

  /** Removes trailing whitespace: the result is the longest prefix that does not
      end with whitespace, and everything dropped is whitespace. */
  function TrimEnd(s: string): (r: string)
    ensures |r| <= |s| && r == s[..|r|]
    ensures AllSpace(s[|r|..])
    ensures r == [] || !IsSpace(r[|r| - 1])
  {
    if s != [] && IsSpace(s[|s| - 1]) then TrimEnd(s[..|s| - 1]) else s
  }

  /** `String.prototype.trim`. */
  function Trim(s: string): string {
    TrimEnd(TrimStart(s))
  }

  /** Appending whitespace does not change what `TrimEnd` keeps. */
  lemma {:induction false} TrimEndIgnoresTrailingSpace(a: string, b: string)
    requires AllSpace(b)
    ensures TrimEnd(a + b) == TrimEnd(a)
    decreases |b|
  {
    if b != [] {
      assert (a + b)[..|a + b| - 1] == a + b[..|b| - 1];
      TrimEndIgnoresTrailingSpace(a, b[..|b| - 1]);
    } else {
      assert a + b == a;
    }
  }

  /** What `TrimStart` keeps is exactly the part after a leading run of whitespace. */
  lemma {:induction false} TrimStartOf(a: string, b: string)
    requires AllSpace(a) && (b == [] || !IsSpace(b[0]))
    ensures TrimStart(a + b) == b
    decreases |a|
  {
    if a == [] {
      assert a + b == b;
    } else {
      assert (a + b)[1..] == a[1..] + b;
      TrimStartOf(a[1..], b);
    }
  }

  /** What `TrimEnd` keeps is exactly the part before a trailing run of whitespace. */
  lemma TrimEndOf(a: string, b: string)
    requires AllSpace(b) && (a == [] || !IsSpace(a[|a| - 1]))
    ensures TrimEnd(a + b) == a
  {
    TrimEndIgnoresTrailingSpace(a, b);
  }

  /** Trimming removes exactly a whitespace prefix and a whitespace suffix
      around a middle that neither starts nor ends with whitespace. */
  lemma TrimOfParts(a: string, b: string, c: string)
    requires AllSpace(a) && AllSpace(c)
    requires b == [] || (!IsSpace(b[0]) && !IsSpace(b[|b| - 1]))
    ensures Trim(a + b + c) == b
  {
    if b == [] {
      assert a + b + c == a + c;
      assert AllSpace(a + c);
      TrimStartOf(a + c, []);
      assert a + c + [] == a + c;
    } else {
      assert a + b + c == a + (b + c);
      TrimStartOf(a, b + c);
      TrimEndOf(b, c);
    }
  }

  /** A string that neither starts nor ends with whitespace is its own trim. */
  lemma TrimOfTrimmed(s: string)
    requires s != [] && !IsSpace(s[0]) && !IsSpace(s[|s| - 1])
    ensures Trim(s) == s
  {
  }

  /** Whatever follows a non-space character that the trim keeps. */
  lemma TrimEndKeepsUpTo(s: string, k: nat)
    requires k < |s| && !IsSpace(s[k])
    ensures |TrimEnd(s)| > k && TrimEnd(s)[..k + 1] == s[..k + 1]
  {
  }

  // ---------------------------------------------------------------------------
  // Searching
  // ---------------------------------------------------------------------------

  /** Length of the longest run of characters satisfying `p` from index `i`. */
  function RunLength(s: string, i: nat, p: char -> bool): (n: nat)
    requires i <= |s|
    decreases |s| - i
    ensures i + n <= |s|
    ensures forall k :: i <= k < i + n ==> p(s[k])
    ensures i + n == |s| || !p(s[i + n])
  {
    if i < |s| && p(s[i]) then 1 + RunLength(s, i + 1, p) else 0
  }

  /** A run from `i` that ends at `q`, just before a character outside the
      class (or the end), has length `q - i`. */
  lemma {:induction false} RunLengthExact(s: string, i: nat, q: nat, p: char -> bool)
    requires i <= q <= |s|
    requires forall k :: i <= k < q ==> p(s[k])
    requires q == |s| || !p(s[q])
    ensures RunLength(s, i, p) == q - i
    decreases q - i
  {
    if i < q {
      RunLengthExact(s, i + 1, q, p);
    }
  }

  /** A run stops at or before any character outside the class. */
  lemma RunStopsAt(s: string, i: nat, q: nat, p: char -> bool)
    requires i <= q < |s| && !p(s[q])
    ensures i + RunLength(s, i, p) <= q
  {
  }

  /** A slice is all whitespace exactly when its first character is and the rest is. */
  lemma AllSpaceCons(s: string, i: nat, q: nat)
    requires i < q <= |s|
    ensures AllSpace(s[i..q]) == (IsSpace(s[i]) && AllSpace(s[i + 1..q]))
  {
    assert s[i..q] == [s[i]] + s[i + 1..q];
  }

  /** JavaScript truthiness of an optional string: present and not empty. */
  predicate Truthy(field: Option<string>) {
    field.Some? && field.value != []
  }

  /** `pat` occurs in `s` at index `i`. */
  predicate OccursAt(s: string, pat: string, i: int) {
    0 <= i && i + |pat| <= |s| && s[i..i + |pat|] == pat
  }

  /** `s.indexOf(pat, from)`: the first index at or after `from` where `pat` occurs. */
  function IndexOfFrom(s: string, pat: string, from: nat): (r: Option<nat>)
    decreases |s| - from
    ensures r.Some? ==> from <= r.value && OccursAt(s, pat, r.value)
    ensures r.Some? ==> forall j :: from <= j < r.value ==> !OccursAt(s, pat, j)
    ensures r.None? ==> forall j :: from <= j ==> !OccursAt(s, pat, j)
  {
    if from + |pat| > |s| then None
    else if s[from..from + |pat|] == pat then Some(from)
    else IndexOfFrom(s, pat, from + 1)
  }

  /** `s.includes(pat)`. */
  predicate Contains(s: string, pat: string) {
    IndexOfFrom(s, pat, 0).Some?
  }

  lemma ContainsMeansOccurs(s: string, pat: string)
    ensures Contains(s, pat) <==> exists i :: OccursAt(s, pat, i)
  {
    var r := IndexOfFrom(s, pat, 0);
    if r.Some? {
      assert OccursAt(s, pat, r.value);
    }
  }

  /** `s.indexOf(c, from)` for a single character. */
  function IndexOfChar(s: string, c: char, from: nat): (r: Option<nat>)
    decreases |s| - from
    ensures r.Some? ==> from <= r.value < |s| && s[r.value] == c
    ensures r.Some? ==> forall j :: from <= j < r.value ==> s[j] != c
    ensures r.None? ==> forall j :: from <= j < |s| ==> s[j] != c
  {
    if from >= |s| then None
    else if s[from] == c then Some(from)
    else IndexOfChar(s, c, from + 1)
  }

  /** `s.lastIndexOf(c)`. */
  function LastIndexOfChar(s: string, c: char): (r: Option<nat>)
    ensures r.Some? ==> r.value < |s| && s[r.value] == c
    ensures r.Some? ==> forall j :: r.value < j < |s| ==> s[j] != c
    ensures r.None? ==> forall j :: 0 <= j < |s| ==> s[j] != c
  {
    if s == [] then None
    else if s[|s| - 1] == c then Some(|s| - 1)
    else LastIndexOfChar(s[..|s| - 1], c)
  }

  /** `s.endsWith(suffix)`. */
  predicate EndsWith(s: string, suffix: string) {
    |suffix| <= |s| && s[|s| - |suffix|..] == suffix
  }

  /** `s.startsWith(prefix)`. */
  predicate StartsWith(s: string, prefix: string) {
    |prefix| <= |s| && s[..|prefix|] == prefix
  }

  // ---------------------------------------------------------------------------
  // Characters and case
  // ---------------------------------------------------------------------------

  predicate IsAsciiLetter(c: char) {
    'a' <= c <= 'z' || 'A' <= c <= 'Z'
  }

  predicate IsDigit(c: char) {
    '0' <= c <= '9'
  }

  /** `toLowerCase` restricted to the ASCII letters; other characters are kept. */
  function LowerChar(c: char): char {
    if 'A' <= c <= 'Z' then (c as int + 32) as char else c
  }

  function Lower(s: string): (r: string)
    ensures |r| == |s| && forall i :: 0 <= i < |s| ==> r[i] == LowerChar(s[i])
  {
    seq(|s|, i requires 0 <= i < |s| => LowerChar(s[i]))
  }

  /** Case-insensitive prefix test of the regular expression flag `i`
      (ASCII folding: `tok` is written in lower case). */
  predicate StartsWithIgnoreCase(s: string, tok: string) {
    |tok| <= |s| && Lower(s[..|tok|]) == tok
  }

  // ---------------------------------------------------------------------------
  // Joining and number formatting
  // ---------------------------------------------------------------------------

  /** `Array.prototype.join(sep)`. */
  function Join(parts: seq<string>, sep: string): string {
    if parts == [] then []
    else if |parts| == 1 then parts[0]
    else parts[0] + sep + Join(parts[1..], sep)
  }

  function DigitChar(d: nat): char
    requires d < 10
  {
    ('0' as int + d) as char
  }

  /** Decimal text of a natural number, without leading zeros. */
  function NatToString(n: nat): (r: string)
    ensures r != [] && forall i :: 0 <= i < |r| ==> IsDigit(r[i])
    ensures |r| > 1 ==> r[0] != '0'
  {
    if n < 10 then [DigitChar(n)] else NatToString(n / 10) + [DigitChar(n % 10)]
  }

  /** Value of a string of decimal digits. */
  function DecimalValue(s: string): nat
    requires forall i :: 0 <= i < |s| ==> IsDigit(s[i])
  {
    if s == [] then 0
    else
      assert IsDigit(s[|s| - 1]);
      10 * DecimalValue(s[..|s| - 1]) + (s[|s| - 1] as int - '0' as int)
  }

  /** Reading the digits back gives the number: the text is a faithful decimal numeral. */
  lemma {:induction false} NatToStringRoundTrip(n: nat)
    ensures DecimalValue(NatToString(n)) == n
  {
    if n >= 10 {
      NatToStringRoundTrip(n / 10);
      var s := NatToString(n);
      assert s[..|s| - 1] == NatToString(n / 10);
    }
  }

  /** How a JavaScript template literal prints an integer-valued number. */
  function IntToString(i: int): (r: string)
    ensures r != [] && forall k :: 0 <= k < |r| ==> IsDigit(r[k]) || r[k] == '-'
  {
    if i < 0 then "-" + NatToString(-i) else NatToString(i)
  }

  /** Distinct integers print differently. */
  lemma IntToStringInjective(a: int, b: int)
    requires IntToString(a) == IntToString(b)
    ensures a == b
  {
    if a < 0 && b < 0 {
      assert NatToString(-a) == IntToString(a)[1..] == IntToString(b)[1..] == NatToString(-b);
      NatToStringRoundTrip(-a);
      NatToStringRoundTrip(-b);
    } else if a >= 0 && b >= 0 {
      NatToStringRoundTrip(a);
      NatToStringRoundTrip(b);
    } else {
      assert IsDigit(NatToString(if a < 0 then b else a)[0]);
    }
  }

  // ---------------------------------------------------------------------------
  // Subsequences
  // ---------------------------------------------------------------------------

  /** `a` is obtained from `b` by deleting characters: `b`'s order is kept. */
  predicate IsSubsequence(a: string, b: string)
    decreases |b|
  {
    if a == [] then true
    else if b == [] then false
    else if a[0] == b[0] then IsSubsequence(a[1..], b[1..])
    else IsSubsequence(a, b[1..])
  }

  lemma {:induction false} SubsequenceCons(x: char, a: string, b: string)
    requires IsSubsequence(a, b)
    ensures IsSubsequence(a, [x] + b)
    decreases |b|, 1
  {
    if a != [] && a[0] == x {
      SubsequenceTail(a, b);
      assert ([x] + b)[1..] == b;
    } else {
      assert ([x] + b)[1..] == b;
    }
  }

  lemma {:induction false} SubsequenceTail(a: string, b: string)
    requires a != [] && IsSubsequence(a, b)
    ensures IsSubsequence(a[1..], b)
    decreases |b|, 0
  {
    assert b != [];
    if a[0] == b[0] {
      SubsequenceCons(b[0], a[1..], b[1..]);
      assert [b[0]] + b[1..] == b;
    } else {
      SubsequenceTail(a, b[1..]);
      SubsequenceCons(b[0], a[1..], b[1..]);
      assert [b[0]] + b[1..] == b;
    }
  }

  /** Deleting a whole prefix of `b` keeps the subsequence relation. */
  lemma {:induction false} SubsequenceOfSuffix(a: string, b: string, k: nat)
    requires k <= |b| && IsSubsequence(a, b[k..])
    ensures IsSubsequence(a, b)
    decreases k
  {
    if k > 0 {
      SubsequenceCons(b[k - 1], a, b[k..]);
      assert [b[k - 1]] + b[k..] == b[k - 1..];
      SubsequenceOfSuffix(a, b, k - 1);
    }
  }

  /** Deleting characters twice is deleting characters once. */
  lemma {:induction false} SubsequenceTrans(a: string, b: string, c: string)
    requires IsSubsequence(a, b) && IsSubsequence(b, c)
    ensures IsSubsequence(a, c)
    decreases |c|
  {
    if a != [] {
      if b[0] == c[0] && a[0] == b[0] {
        SubsequenceTrans(a[1..], b[1..], c[1..]);
      } else {
        if b[0] == c[0] {
          SubsequenceTrans(a, b[1..], c[1..]);
        } else {
          SubsequenceTrans(a, b, c[1..]);
        }
        SubsequenceCons(c[0], a, c[1..]);
        assert [c[0]] + c[1..] == c;
      }
    }
  }

  /** A prefix is a subsequence. */
  lemma {:induction false} SubsequencePrefix(s: string, n: nat)
    requires n <= |s|
    ensures IsSubsequence(s[..n], s)
  {
    if n > 0 {
      SubsequencePrefix(s[1..], n - 1);
      assert s[..n][1..] == s[1..][..n - 1];
    }
  }

  lemma {:induction false} SubsequenceRefl(s: string)
    ensures IsSubsequence(s, s)
  {
    if s != [] {
      SubsequenceRefl(s[1..]);
    }
  }

  // ---------------------------------------------------------------------------
  // Parsed URLs
  // ---------------------------------------------------------------------------

  /** The fields of a WHATWG `URL` object that the code reads. The parser
      itself is foreign: callers pass it in as a partial function. */
  datatype UrlParts = UrlParts(protocol: string, hostname: string, href: string)

  // ---------------------------------------------------------------------------
  // JSON values
  // ---------------------------------------------------------------------------

  /** A value produced by `JSON.parse`. An object is its list of members in
      property order; `JSON.parse` never yields two members with one key. */
  datatype Json =
    | JNull
    | JBool(b: bool)
    | JNumber(n: real)
    | JString(s: string)
    | JArray(items: seq<Json>)
    | JObject(members: seq<Member>)

  datatype Member = Member(key: string, value: Json)
}
