/**
 * Input and output sanitizers of lib/utils.ts.
 *
 * Each regular expression of the source is rewritten as an explicit scanner.
 * A global `replace(re, '')` is `StripMatches`: at every index the pattern is
 * tried against the rest of the string; a match is deleted and the scan resumes
 * right after it, otherwise one character is kept. None of the patterns has an
 * anchor or a look-behind, so matching at index `i` of `s` is matching at the
 * start of `s[i..]`.
 */
module Utils {
  import opened Common

  // ---------------------------------------------------------------------------
  // Scanning framework
  // ---------------------------------------------------------------------------

  /** A global `replace(re, '')`, where `m(t)` is the length of the match of
      `re` at the start of `t`, if any. What is kept is a subsequence. */
  function StripMatches(s: string, m: string -> Option<nat>): (r: string)
    requires forall t :: m(t).Some? ==> 0 < m(t).value <= |t|
    ensures |r| <= |s| && IsSubsequence(r, s)
  {
    if s == [] then []
    else match m(s)
      case Some(n) =>
        var rest := StripMatches(s[n..], m);
        SubsequenceOfSuffix(rest, s, n);
        rest
      case None =>
        var rest := StripMatches(s[1..], m);
        assert ([s[0]] + rest)[1..] == rest;
        [s[0]] + rest
  }

  // ---------------------------------------------------------------------------
  // Tags: /<[^>]*>/g  (lib/utils.ts:13, 38)
  // ---------------------------------------------------------------------------

  /** `<[^>]*>` at the start of `t`: a `<` and everything up to the first `>` after it. */
  function TagMatch(t: string): (r: Option<nat>)
    ensures r.Some? ==> 0 < r.value <= |t|
  {
    if t != [] && t[0] == '<' then
      match IndexOfChar(t, '>', 1)
      case Some(j) => Some(j + 1)
      case None => None
    else None
  }

  /** The reference reading of `<[^>]*>`: the first `n` characters of `t` are
      a `<`, characters other than `>`, and a `>`. */
  predicate TagShape(t: string, n: nat) {
    2 <= n <= |t| && t[0] == '<' && t[n - 1] == '>' && forall k :: 1 <= k < n - 1 ==> t[k] != '>'
  }

  /** The scanner finds a tag of length `n` exactly when the pattern matches
      that many characters. */
  lemma TagPatternCorrect(t: string, n: nat)
    ensures TagMatch(t) == Some(n) <==> TagShape(t, n)
  {
    if TagShape(t, n) {
      var j := IndexOfChar(t, '>', 1);
      assert j.Some? && j.value == n - 1;
    }
  }

  function StripTags(s: string): (r: string)
    ensures |r| <= |s| && IsSubsequence(r, s)
  {
    StripMatches(s, TagMatch)
  }

  /** No `<` is followed, anywhere later, by a `>`: no tag-shaped span is left. */
  predicate NoTagSpan(s: string) {
    forall i, j :: 0 <= i < j < |s| && s[i] == '<' ==> s[j] != '>'
  }

  lemma {:induction false} StripTagsWithoutClose(s: string)
    requires forall k :: 0 <= k < |s| ==> s[k] != '>'
    ensures StripTags(s) == s
  {
    if s != [] {
      StripTagsWithoutClose(s[1..]);
    }
  }

  /** After the tag stage no `<` has a `>` after it, and the characters kept
      are a subsequence of the input (their order is unchanged). */
  lemma {:induction false} StripTagsLeavesNoTag(s: string)
    ensures NoTagSpan(StripTags(s)) && IsSubsequence(StripTags(s), s)
  {
    if s != [] {
      match TagMatch(s)
      case Some(n) =>
        StripTagsLeavesNoTag(s[n..]);
      case None =>
        var rest := StripTags(s[1..]);
        StripTagsLeavesNoTag(s[1..]);
        assert StripTags(s) == [s[0]] + rest;
        if s[0] == '<' {
          assert IndexOfChar(s, '>', 1).None?;
          StripTagsWithoutClose(s[1..]);
          assert rest == s[1..];
        }
    }
  }

  // ---------------------------------------------------------------------------
  // Event handlers: /on\w+\s*=\s*["'][^"']*["']/gi  (lib/utils.ts:32)
  // ---------------------------------------------------------------------------

  predicate IsWordChar(c: char) {
    IsAsciiLetter(c) || IsDigit(c) || c == '_'
  }

  predicate IsQuote(c: char) {
    c == '"' || c == '\''
  }

  predicate IsNotQuote(c: char) {
    !IsQuote(c)
  }

  /** `on\w+\s*=\s*["'][^"']*["']` (flag `i`) at the start of `t`. Every
      quantifier is greedy and is followed by a character that its own class
      excludes, so backtracking never yields a different match. The two
      quotes need not be the same character. The scan goes in stages, one
      per run of the pattern. */
  function EventMatch(t: string): (r: Option<nat>)
    ensures r.Some? ==> 0 < r.value <= |t|
  {
    if |t| < 2 || LowerChar(t[0]) != 'o' || LowerChar(t[1]) != 'n' then None
    else EventAfterName(t, 2 + RunLength(t, 2, IsWordChar))
  }

  /** After `on` and the word characters up to `w`: at least one of them. */
  function EventAfterName(t: string, w: nat): (r: Option<nat>)
    requires 2 <= w <= |t|
    ensures r.Some? ==> w < r.value <= |t|
  {
    if w == 2 then None else EventAtEquals(t, w + RunLength(t, w, IsSpace))
  }

  /** At the end `e` of the whitespace after the name: an `=` is required. */
  function EventAtEquals(t: string, e: nat): (r: Option<nat>)
    requires e <= |t|
    ensures r.Some? ==> e < r.value <= |t|
  {
    if e == |t| || t[e] != '=' then None else EventAtQuote(t, e + 1 + RunLength(t, e + 1, IsSpace))
  }

  /** At the end `q1` of the whitespace after `=`: an opening quote, then
      non-quotes up to a closing quote. */
  function EventAtQuote(t: string, q1: nat): (r: Option<nat>)
    requires q1 <= |t|
    ensures r.Some? ==> q1 < r.value <= |t|
  {
    if q1 == |t| || !IsQuote(t[q1]) then None
    else
      var q2 := q1 + 1 + RunLength(t, q1 + 1, IsNotQuote);
      if q2 == |t| then None else Some(q2 + 1)
  }

  /** Every character of `t[lo..hi]` is in the class `p`. */
  predicate AllIn(t: string, lo: nat, hi: nat, p: char -> bool)
    requires lo <= hi <= |t|
  {
    forall k :: lo <= k < hi ==> p(t[k])
  }

  /** The parts of the event-handler pattern at the start of `t`: `on` in
      either case, the word characters up to `w`, whitespace up to the `=` at
      `e`, whitespace up to the quote at `q1`, and non-quotes up to the quote
      at `q2`. */
  predicate EventSplit(t: string, w: nat, e: nat, q1: nat, q2: nat) {
    2 < w <= e < q1 < q2 < |t| &&
    LowerChar(t[0]) == 'o' && LowerChar(t[1]) == 'n' &&
    AllIn(t, 2, w, IsWordChar) && AllIn(t, w, e, IsSpace) && t[e] == '=' &&
    AllIn(t, e + 1, q1, IsSpace) && IsQuote(t[q1]) &&
    AllIn(t, q1 + 1, q2, IsNotQuote) && IsQuote(t[q2])
  }

  /** The reference reading of the pattern: it matches the first `n` characters. */
  ghost predicate EventShape(t: string, n: nat) {
    exists w: nat, e: nat, q1: nat, q2: nat :: EventSplit(t, w, e, q1, q2) && n == q2 + 1
  }

  /** The scanner finds a handler of length `n` exactly when the pattern
      matches that many characters: no other split of the parts exists. */
  lemma EventPatternCorrect(t: string, n: nat)
    ensures EventMatch(t) == Some(n) <==> EventShape(t, n)
  {
    if EventShape(t, n) {
      EventShapeFound(t, n);
    }
    if EventMatch(t) == Some(n) {
      EventMatchSplits(t);
    }
  }

  lemma EventShapeFound(t: string, n: nat)
    requires EventShape(t, n)
    ensures EventMatch(t) == Some(n)
  {
    var w: nat, e: nat, q1: nat, q2: nat :| EventSplit(t, w, e, q1, q2) && n == q2 + 1;
    EventSplitFound(t, w, e, q1, q2);
  }

  /** Each part of a split is a maximal run, so the scanner stops where the
      split does, stage by stage. */
  lemma EventSplitFound(t: string, w: nat, e: nat, q1: nat, q2: nat)
    requires EventSplit(t, w, e, q1, q2)
    ensures EventMatch(t) == Some(q2 + 1)
  {
    QuoteFound(t, q1, q2);
    EqualsFound(t, e, q1);
    NameFound(t, w, e);
    MatchFound(t, w);
  }

  lemma QuoteFound(t: string, q1: nat, q2: nat)
    requires q1 < q2 < |t| && IsQuote(t[q1]) && AllIn(t, q1 + 1, q2, IsNotQuote) && IsQuote(t[q2])
    ensures EventAtQuote(t, q1) == Some(q2 + 1)
  {
    RunLengthExact(t, q1 + 1, q2, IsNotQuote);
  }

  /** A quote ends the run of whitespace after `=`. */
  lemma EqualsFound(t: string, e: nat, q1: nat)
    requires e < q1 < |t| && t[e] == '=' && AllIn(t, e + 1, q1, IsSpace) && IsQuote(t[q1])
    ensures EventAtEquals(t, e) == EventAtQuote(t, q1)
  {
    assert !IsSpace(t[q1]);
    RunLengthExact(t, e + 1, q1, IsSpace);
  }

  /** `=` ends the run of whitespace after the name. */
  lemma NameFound(t: string, w: nat, e: nat)
    requires 2 < w <= e < |t| && AllIn(t, w, e, IsSpace) && t[e] == '='
    ensures EventAfterName(t, w) == EventAtEquals(t, e)
  {
    assert !IsSpace(t[e]);
    RunLengthExact(t, w, e, IsSpace);
  }

  /** Whitespace or `=` ends the run of word characters. */
  lemma MatchFound(t: string, w: nat)
    requires 2 < w < |t| && LowerChar(t[0]) == 'o' && LowerChar(t[1]) == 'n'
    requires AllIn(t, 2, w, IsWordChar) && (IsSpace(t[w]) || t[w] == '=')
    ensures EventMatch(t) == EventAfterName(t, w)
  {
    assert !IsWordChar(t[w]);
    RunLengthExact(t, 2, w, IsWordChar);
  }

  /** What the scanner finds splits into the parts of the pattern. */
  lemma EventMatchSplits(t: string)
    requires EventMatch(t).Some?
    ensures EventShape(t, EventMatch(t).value)
  {
    var w := MatchSplits(t);
    var e := NameSplits(t, w);
    var q1 := EqualsSplits(t, e);
    var q2 := QuoteSplits(t, q1);
    assert EventSplit(t, w, e, q1, q2);
  }

  lemma MatchSplits(t: string) returns (w: nat)
    requires EventMatch(t).Some?
    ensures 2 <= w <= |t| && LowerChar(t[0]) == 'o' && LowerChar(t[1]) == 'n'
    ensures EventMatch(t) == EventAfterName(t, w) && AllIn(t, 2, w, IsWordChar)
  {
    w := 2 + RunLength(t, 2, IsWordChar);
  }

  lemma NameSplits(t: string, w: nat) returns (e: nat)
    requires 2 <= w <= |t| && EventAfterName(t, w).Some?
    ensures 2 < w <= e <= |t| && EventAfterName(t, w) == EventAtEquals(t, e) && AllIn(t, w, e, IsSpace)
  {
    e := w + RunLength(t, w, IsSpace);
  }

  lemma EqualsSplits(t: string, e: nat) returns (q1: nat)
    requires e <= |t| && EventAtEquals(t, e).Some?
    ensures e < q1 <= |t| && t[e] == '='
    ensures EventAtEquals(t, e) == EventAtQuote(t, q1) && AllIn(t, e + 1, q1, IsSpace)
  {
    q1 := e + 1 + RunLength(t, e + 1, IsSpace);
  }

  lemma QuoteSplits(t: string, q1: nat) returns (q2: nat)
    requires q1 <= |t| && EventAtQuote(t, q1).Some?
    ensures q1 < q2 < |t| && IsQuote(t[q1]) && IsQuote(t[q2])
    ensures EventAtQuote(t, q1) == Some(q2 + 1) && AllIn(t, q1 + 1, q2, IsNotQuote)
  {
    q2 := q1 + 1 + RunLength(t, q1 + 1, IsNotQuote);
  }

  function StripEventHandlers(s: string): (r: string)
    ensures |r| <= |s| && IsSubsequence(r, s)
  {
    StripMatches(s, EventMatch)
  }

  // ---------------------------------------------------------------------------
  // Protocols: /javascript:|vbscript:|data:|file:/gi  (lib/utils.ts:35)
  // ---------------------------------------------------------------------------

  /** The alternatives in the order the pattern lists them. */
  function ProtocolMatch(t: string): (r: Option<nat>)
    ensures r.Some? ==> 0 < r.value <= |t|
  {
    if StartsWithIgnoreCase(t, "javascript:") then Some(11)
    else if StartsWithIgnoreCase(t, "vbscript:") then Some(9)
    else if StartsWithIgnoreCase(t, "data:") then Some(5)
    else if StartsWithIgnoreCase(t, "file:") then Some(5)
    else None
  }

  /** The four alternatives of the pattern. */
  const ProtocolTokens: seq<string> := ["javascript:", "vbscript:", "data:", "file:"]

  /** The reference reading: some alternative matches the first `n` characters. */
  ghost predicate ProtocolShape(t: string, n: nat) {
    exists tok :: tok in ProtocolTokens && n == |tok| && StartsWithIgnoreCase(t, tok)
  }

  /** No two alternatives begin with the same letter, so at most one matches. */
  lemma ProtocolPatternCorrect(t: string, n: nat)
    ensures ProtocolMatch(t) == Some(n) <==> ProtocolShape(t, n)
  {
    if ProtocolShape(t, n) {
      var tok :| tok in ProtocolTokens && n == |tok| && StartsWithIgnoreCase(t, tok);
      assert Lower(t[..|tok|])[0] == tok[0];
    }
    if ProtocolMatch(t).Some? {
      var tok := if StartsWithIgnoreCase(t, "javascript:") then "javascript:"
        else if StartsWithIgnoreCase(t, "vbscript:") then "vbscript:"
        else if StartsWithIgnoreCase(t, "data:") then "data:" else "file:";
      assert tok in ProtocolTokens;
    }
  }

  function StripProtocols(s: string): (r: string)
    ensures |r| <= |s| && IsSubsequence(r, s)
  {
    StripMatches(s, ProtocolMatch)
  }

  // ---------------------------------------------------------------------------
  // Entity escaping (lib/utils.ts:16-22, 41-48)
  // ---------------------------------------------------------------------------

  /** One `replace(/c/g, rep)` with a one-character pattern. */
  function ReplaceChar(s: string, c: char, rep: string): string {
    if s == [] then [] else (if s[0] == c then rep else [s[0]]) + ReplaceChar(s[1..], c, rep)
  }

  /** The `.replace` chain of `sanitizeInput`, in the source's order. */
  function EscapeBasic(s: string): string {
    var amp := ReplaceChar(s, '&', "&amp;");
    var lt := ReplaceChar(amp, '<', "&lt;");
    var gt := ReplaceChar(lt, '>', "&gt;");
    var quot := ReplaceChar(gt, '"', "&quot;");
    var apos := ReplaceChar(quot, '\'', "&#x27;");
    ReplaceChar(apos, '/', "&#x2F;")
  }

  /** The chain of `strictSanitizeInput`: the same, then the backslash. */
  function EscapeStrict(s: string): string {
    ReplaceChar(EscapeBasic(s), '\\', "&#x5C;")
  }

  /** The entity each character stands for, as an independent per-character map. */
  function EntityBasic(c: char): string {
    match c
    case '&' => "&amp;"
    case '<' => "&lt;"
    case '>' => "&gt;"
    case '"' => "&quot;"
    case '\'' => "&#x27;"
    case '/' => "&#x2F;"
    case _ => [c]
  }

  function EntityStrict(c: char): string {
    if c == '\\' then "&#x5C;" else EntityBasic(c)
  }

  /** Replaces every character by its image under `f`. */
  function Expand(s: string, f: char -> string): string {
    if s == [] then [] else f(s[0]) + Expand(s[1..], f)
  }

  lemma {:induction false} ReplaceCharAppend(a: string, b: string, c: char, rep: string)
    ensures ReplaceChar(a + b, c, rep) == ReplaceChar(a, c, rep) + ReplaceChar(b, c, rep)
  {
    if a == [] {
      assert a + b == b;
    } else {
      assert (a + b)[1..] == a[1..] + b;
      ReplaceCharAppend(a[1..], b, c, rep);
    }
  }

  lemma {:induction false} ReplaceCharAbsent(s: string, c: char, rep: string)
    requires forall k :: 0 <= k < |s| ==> s[k] != c
    ensures ReplaceChar(s, c, rep) == s
  {
    if s != [] {
      ReplaceCharAbsent(s[1..], c, rep);
    }
  }

  lemma ReplaceCharSingle(x: char, c: char, rep: string)
    ensures ReplaceChar([x], c, rep) == if x == c then rep else [x]
  {
    assert [x][1..] == [];
  }

  /** The escape chain distributes over concatenation. */
  lemma EscapeBasicAppend(a: string, b: string)
    ensures EscapeBasic(a + b) == EscapeBasic(a) + EscapeBasic(b)
  {
    var a1, b1 := ReplaceChar(a, '&', "&amp;"), ReplaceChar(b, '&', "&amp;");
    ReplaceCharAppend(a, b, '&', "&amp;");
    var a2, b2 := ReplaceChar(a1, '<', "&lt;"), ReplaceChar(b1, '<', "&lt;");
    ReplaceCharAppend(a1, b1, '<', "&lt;");
    var a3, b3 := ReplaceChar(a2, '>', "&gt;"), ReplaceChar(b2, '>', "&gt;");
    ReplaceCharAppend(a2, b2, '>', "&gt;");
    var a4, b4 := ReplaceChar(a3, '"', "&quot;"), ReplaceChar(b3, '"', "&quot;");
    ReplaceCharAppend(a3, b3, '"', "&quot;");
    var a5, b5 := ReplaceChar(a4, '\'', "&#x27;"), ReplaceChar(b4, '\'', "&#x27;");
    ReplaceCharAppend(a4, b4, '\'', "&#x27;");
    ReplaceCharAppend(a5, b5, '/', "&#x2F;");
  }

  lemma EscapeStrictAppend(a: string, b: string)
    ensures EscapeStrict(a + b) == EscapeStrict(a) + EscapeStrict(b)
  {
    EscapeBasicAppend(a, b);
    ReplaceCharAppend(EscapeBasic(a), EscapeBasic(b), '\\', "&#x5C;");
  }

  /** The five steps after the first leave alone a string without the characters they replace. */
  lemma LaterStepsKeep(t: string)
    requires forall k :: 0 <= k < |t| ==> !IsMarkupChar(t[k])
    ensures ReplaceChar(ReplaceChar(ReplaceChar(ReplaceChar(ReplaceChar(t,
      '<', "&lt;"), '>', "&gt;"), '"', "&quot;"), '\'', "&#x27;"), '/', "&#x2F;") == t
  {
    ReplaceCharAbsent(t, '<', "&lt;");
    ReplaceCharAbsent(t, '>', "&gt;");
    ReplaceCharAbsent(t, '"', "&quot;");
    ReplaceCharAbsent(t, '\'', "&#x27;");
    ReplaceCharAbsent(t, '/', "&#x2F;");
  }

  lemma EscapeBasicOfAmp(x: char, e: string)
    requires x == '&' && e == "&amp;"
    ensures EscapeBasic([x]) == e
  {
    ReplaceCharSingle(x, '&', e);
    ReplaceCharAbsent(e, '<', "&lt;");
    ReplaceCharAbsent(e, '>', "&gt;");
    ReplaceCharAbsent(e, '"', "&quot;");
    ReplaceCharAbsent(e, '\'', "&#x27;");
    ReplaceCharAbsent(e, '/', "&#x2F;");
  }

  lemma EscapeBasicOfLt(x: char, e: string)
    requires x == '<' && e == "&lt;"
    ensures EscapeBasic([x]) == e
  {
    ReplaceCharSingle(x, '&', "&amp;");
    ReplaceCharSingle(x, '<', e);
    ReplaceCharAbsent(e, '>', "&gt;");
    ReplaceCharAbsent(e, '"', "&quot;");
    ReplaceCharAbsent(e, '\'', "&#x27;");
    ReplaceCharAbsent(e, '/', "&#x2F;");
  }

  lemma EscapeBasicOfGt(x: char, e: string)
    requires x == '>' && e == "&gt;"
    ensures EscapeBasic([x]) == e
  {
    ReplaceCharSingle(x, '&', "&amp;");
    ReplaceCharSingle(x, '<', "&lt;");
    ReplaceCharSingle(x, '>', e);
    ReplaceCharAbsent(e, '"', "&quot;");
    ReplaceCharAbsent(e, '\'', "&#x27;");
    ReplaceCharAbsent(e, '/', "&#x2F;");
  }

  lemma EscapeBasicOfQuot(x: char, e: string)
    requires x == '"' && e == "&quot;"
    ensures EscapeBasic([x]) == e
  {
    ReplaceCharSingle(x, '&', "&amp;");
    ReplaceCharSingle(x, '<', "&lt;");
    ReplaceCharSingle(x, '>', "&gt;");
    ReplaceCharSingle(x, '"', e);
    assert forall k :: 0 <= k < |e| ==> e[k] != '\'' && e[k] != '/';
    ReplaceCharAbsent(e, '\'', "&#x27;");
    ReplaceCharAbsent(e, '/', "&#x2F;");
  }

  lemma EscapeBasicOfApos(x: char, e: string)
    requires x == '\'' && e == "&#x27;"
    ensures EscapeBasic([x]) == e
  {
    ReplaceCharSingle(x, '&', "&amp;");
    ReplaceCharSingle(x, '<', "&lt;");
    ReplaceCharSingle(x, '>', "&gt;");
    ReplaceCharSingle(x, '"', "&quot;");
    ReplaceCharSingle(x, '\'', e);
    ReplaceCharAbsent(e, '/', "&#x2F;");
  }

  lemma EscapeBasicOfSlash(x: char, e: string)
    requires x == '/' && e == "&#x2F;"
    ensures EscapeBasic([x]) == e
  {
    ReplaceCharSingle(x, '&', "&amp;");
    ReplaceCharSingle(x, '<', "&lt;");
    ReplaceCharSingle(x, '>', "&gt;");
    ReplaceCharSingle(x, '"', "&quot;");
    ReplaceCharSingle(x, '\'', "&#x27;");
    ReplaceCharSingle(x, '/', e);
  }

  /** No later step of the chain touches what an earlier step produced. */
  lemma EscapeBasicOne(x: char)
    ensures EscapeBasic([x]) == EntityBasic(x)
  {
    if x == '&' { EscapeBasicOfAmp(x, "&amp;"); }
    else if x == '<' { EscapeBasicOfLt(x, "&lt;"); }
    else if x == '>' { EscapeBasicOfGt(x, "&gt;"); }
    else if x == '"' { EscapeBasicOfQuot(x, "&quot;"); }
    else if x == '\'' { EscapeBasicOfApos(x, "&#x27;"); }
    else if x == '/' { EscapeBasicOfSlash(x, "&#x2F;"); }
    else {
      ReplaceCharSingle(x, '&', "&amp;");
      LaterStepsKeep([x]);
    }
  }

  lemma EscapeStrictOne(x: char)
    ensures EscapeStrict([x]) == EntityStrict(x)
  {
    EscapeBasicOne(x);
    if x == '\\' { ReplaceCharSingle(x, '\\', "&#x5C;"); } else { ReplaceCharAbsent(EntityBasic(x), '\\', "&#x5C;"); }
  }

  /** Because `&` is replaced first, the chain is a per-character map: every
      character is escaped exactly once and no entity is escaped again. */
  lemma {:induction false} EscapeBasicIsPerChar(s: string)
    ensures EscapeBasic(s) == Expand(s, EntityBasic)
  {
    if s != [] {
      assert s == [s[0]] + s[1..];
      EscapeBasicAppend([s[0]], s[1..]);
      EscapeBasicOne(s[0]);
      EscapeBasicIsPerChar(s[1..]);
    } else {
      assert EscapeBasic(s) == [];
    }
  }

  lemma {:induction false} EscapeStrictIsPerChar(s: string)
    ensures EscapeStrict(s) == Expand(s, EntityStrict)
  {
    if s != [] {
      assert s == [s[0]] + s[1..];
      EscapeStrictAppend([s[0]], s[1..]);
      EscapeStrictOne(s[0]);
      EscapeStrictIsPerChar(s[1..]);
    } else {
      assert EscapeStrict(s) == [];
    }
  }

  /** The characters `sanitizeInput` escapes. */
  predicate IsMarkupChar(c: char) {
    c == '<' || c == '>' || c == '"' || c == '\'' || c == '/'
  }

  lemma {:induction false} ExpandBasicIsClean(s: string)
    ensures forall k :: 0 <= k < |Expand(s, EntityBasic)| ==> !IsMarkupChar(Expand(s, EntityBasic)[k])
  {
    if s != [] {
      ExpandBasicIsClean(s[1..]);
      var head := EntityBasic(s[0]);
      assert forall k :: 0 <= k < |head| ==> !IsMarkupChar(head[k]);
    }
  }

  lemma {:induction false} ExpandStrictIsClean(s: string)
    ensures forall k :: 0 <= k < |Expand(s, EntityStrict)| ==>
      !IsMarkupChar(Expand(s, EntityStrict)[k]) && Expand(s, EntityStrict)[k] != '\\'
  {
    if s != [] {
      ExpandStrictIsClean(s[1..]);
      var head := EntityStrict(s[0]);
      assert forall k :: 0 <= k < |head| ==> !IsMarkupChar(head[k]) && head[k] != '\\';
    }
  }

  // ---------------------------------------------------------------------------
  // sanitizeInput and strictSanitizeInput
  // ---------------------------------------------------------------------------

  /** `sanitizeInput` (lib/utils.ts:9-25): tags stripped, then entity-escaped. */
  function SanitizeInput(input: string): (r: string)
    ensures input == [] ==> r == []
    ensures forall k :: 0 <= k < |r| ==> !IsMarkupChar(r[k])
    ensures r == Expand(StripTags(input), EntityBasic)
  {
    if input == [] then []
    else
      var withoutHtml := StripTags(input);
      EscapeBasicIsPerChar(withoutHtml);
      ExpandBasicIsClean(withoutHtml);
      EscapeBasic(withoutHtml)
  }

  /** The three stripping stages of `strictSanitizeInput`, in order. */
  function StrictStrip(input: string): string {
    StripTags(StripProtocols(StripEventHandlers(input)))
  }

  /** `strictSanitizeInput` (lib/utils.ts:28-51). */
  function StrictSanitizeInput(input: string): (r: string)
    ensures input == [] ==> r == []
    ensures forall k :: 0 <= k < |r| ==> !IsMarkupChar(r[k]) && r[k] != '\\'
    ensures r == Expand(StrictStrip(input), EntityStrict)
  {
    if input == [] then []
    else
      var withoutHtml := StrictStrip(input);
      EscapeStrictIsPerChar(withoutHtml);
      ExpandStrictIsClean(withoutHtml);
      EscapeStrict(withoutHtml)
  }

  /** The tag stage of `strictSanitizeInput` leaves no tag-shaped span and
      keeps what survives the earlier stages in order. */
  lemma StrictStripKeepsOrder(input: string)
    ensures NoTagSpan(StrictStrip(input))
    ensures IsSubsequence(StrictStrip(input), StripProtocols(StripEventHandlers(input)))
  {
    StripTagsLeavesNoTag(StripProtocols(StripEventHandlers(input)));
  }

  lemma ExpandAppend(a: string, b: string, f: char -> string)
    ensures Expand(a + b, f) == Expand(a, f) + Expand(b, f)
  {
    if a == [] {
      assert a + b == b;
    } else {
      assert (a + b)[1..] == a[1..] + b;
      ExpandAppend(a[1..], b, f);
    }
  }

  // ---------------------------------------------------------------------------
  // truncateText (lib/utils.ts:83-86)
  // ---------------------------------------------------------------------------

  /** The default of the `maxLength` parameter. */
  const DefaultMaxLength := 1000

  /** `substring(0, n)` clamps `n` into `[0, |s|]`. */
  function Substring0(s: string, n: int): (r: string)
    ensures r == s[..if n < 0 then 0 else if n > |s| then |s| else n]
  {
    if n <= 0 then [] else if n >= |s| then s else s[..n]
  }

  function TruncateText(text: string, maxLength: int): (r: string)
    ensures text == [] ==> r == []
    ensures |text| <= maxLength ==> r == text
    ensures 0 <= maxLength < |text| ==> r == text[..maxLength] + "..." && |r| == maxLength + 3
    ensures maxLength < 0 && text != [] ==> r == "..."
  {
    if text == [] then [] else if |text| > maxLength then Substring0(text, maxLength) + "..." else text
  }

  /** With the default limit, text over 1000 characters is cut to its first
      1000 and the ellipsis. */
  lemma TruncateTextDefault(text: string)
    requires |text| > DefaultMaxLength
    ensures TruncateText(text, DefaultMaxLength) == text[..1000] + "..."
    ensures |TruncateText(text, DefaultMaxLength)| == 1003
  {
  }

  // ---------------------------------------------------------------------------
  // sanitizeFileName (lib/utils.ts:89-97)
  // ---------------------------------------------------------------------------

  /** The class `[<>:"/\\|?*]`. */
  predicate IsFileNameForbidden(c: char) {
    c == '<' || c == '>' || c == ':' || c == '"' || c == '/' || c == '\\' || c == '|' || c == '?' || c == '*'
  }

  predicate NoForbidden(s: string) {
    forall k :: 0 <= k < |s| ==> !IsFileNameForbidden(s[k])
  }

  /** `replace(/[<>:"/\\|?*]/g, '')`. */
  function RemoveForbidden(s: string): (r: string)
    ensures |r| <= |s|
    ensures NoForbidden(r)
  {
    if s == [] then []
    else if IsFileNameForbidden(s[0]) then RemoveForbidden(s[1..])
    else [s[0]] + RemoveForbidden(s[1..])
  }

  /** The other characters keep their order... */
  lemma {:induction false} RemoveForbiddenKeepsOrder(s: string)
    ensures IsSubsequence(RemoveForbidden(s), s)
  {
    if s != [] {
      var rest := RemoveForbidden(s[1..]);
      RemoveForbiddenKeepsOrder(s[1..]);
      if IsFileNameForbidden(s[0]) {
        assert RemoveForbidden(s) == rest;
        SubsequenceCons(s[0], rest, s[1..]);
        assert [s[0]] + s[1..] == s;
      } else {
        assert RemoveForbidden(s) == [s[0]] + rest;
        assert ([s[0]] + rest)[1..] == rest;
      }
    }
  }

  /** ...and every occurrence of them survives. */
  lemma {:induction false} RemoveForbiddenKeepsAllowed(s: string, c: char)
    requires !IsFileNameForbidden(c)
    ensures multiset(RemoveForbidden(s))[c] == multiset(s)[c]
  {
    if s != [] {
      RemoveForbiddenKeepsAllowed(s[1..], c);
      assert s == [s[0]] + s[1..];
      assert multiset(s) == multiset([s[0]]) + multiset(s[1..]);
    }
  }

  /** A name without forbidden characters is left as it is. */
  lemma {:induction false} RemoveForbiddenFixesClean(s: string)
    requires NoForbidden(s)
    ensures RemoveForbidden(s) == s
  {
    if s != [] {
      assert forall k :: 0 <= k < |s[1..]| ==> s[1..][k] == s[k + 1];
      RemoveForbiddenFixesClean(s[1..]);
      assert [s[0]] + s[1..] == s;
    }
  }

  /** `replace(/\.\./g, '')`: pairs of dots are deleted left to right. */
  function RemoveDotPairs(s: string): (r: string)
    ensures |r| <= |s|
    ensures forall k :: 0 <= k < |r| ==> r[k] in s
  {
    if |s| >= 2 && s[0] == '.' && s[1] == '.' then RemoveDotPairs(s[2..])
    else if s == [] then []
    else [s[0]] + RemoveDotPairs(s[1..])
  }

  predicate NoDoubleDot(s: string) {
    forall k :: 0 <= k < |s| - 1 ==> !(s[k] == '.' && s[k + 1] == '.')
  }

  /** Of every run of dots at most one survives, so no `..` is left. */
  lemma {:induction false} RemoveDotPairsLeavesNoDoubleDot(s: string)
    ensures NoDoubleDot(RemoveDotPairs(s))
    ensures RemoveDotPairs(s) != [] && RemoveDotPairs(s)[0] == '.' ==> s[0] == '.'
  {
    if |s| >= 2 && s[0] == '.' && s[1] == '.' {
      RemoveDotPairsLeavesNoDoubleDot(s[2..]);
    } else if s != [] {
      RemoveDotPairsLeavesNoDoubleDot(s[1..]);
      var rest := RemoveDotPairs(s[1..]);
      assert RemoveDotPairs(s) == [s[0]] + rest;
      if s[0] == '.' && rest != [] {
        assert rest[0] == s[1];
      }
    }
  }

  /** The kept characters stay in order... */
  lemma {:induction false} RemoveDotPairsKeepsOrder(s: string)
    ensures IsSubsequence(RemoveDotPairs(s), s)
  {
    if |s| >= 2 && s[0] == '.' && s[1] == '.' {
      RemoveDotPairsKeepsOrder(s[2..]);
      SubsequenceOfSuffix(RemoveDotPairs(s[2..]), s, 2);
    } else if s != [] {
      var rest := RemoveDotPairs(s[1..]);
      RemoveDotPairsKeepsOrder(s[1..]);
      assert RemoveDotPairs(s) == [s[0]] + rest;
      assert ([s[0]] + rest)[1..] == rest;
    }
  }

  /** ...and only dots are deleted. */
  lemma {:induction false} RemoveDotPairsKeepsOthers(s: string, c: char)
    requires c != '.'
    ensures multiset(RemoveDotPairs(s))[c] == multiset(s)[c]
  {
    if |s| >= 2 && s[0] == '.' && s[1] == '.' {
      RemoveDotPairsKeepsOthers(s[2..], c);
      assert s == [s[0], s[1]] + s[2..];
      assert multiset(s) == multiset([s[0], s[1]]) + multiset(s[2..]);
    } else if s != [] {
      RemoveDotPairsKeepsOthers(s[1..], c);
      assert s == [s[0]] + s[1..];
      assert multiset(s) == multiset([s[0]]) + multiset(s[1..]);
    }
  }

  /** A name without `..` is left as it is. */
  lemma {:induction false} RemoveDotPairsFixesSingle(s: string)
    requires NoDoubleDot(s)
    ensures RemoveDotPairs(s) == s
  {
    if s != [] {
      assert NoDoubleDot(s[1..]) by {
        forall k | 0 <= k < |s[1..]| - 1 ensures !(s[1..][k] == '.' && s[1..][k + 1] == '.') {
          assert s[1..][k] == s[k + 1] && s[1..][k + 1] == s[k + 2];
        }
      }
      RemoveDotPairsFixesSingle(s[1..]);
      assert [s[0]] + s[1..] == s;
    }
  }

  /** `n` dots. */
  function Dots(n: nat): (r: string)
    ensures |r| == n
  {
    if n == 0 then [] else "." + Dots(n - 1)
  }

  /** A run of `2 * m + b` dots, not followed by another dot, leaves `b` of
      them: the pairs are deleted from the left, so an even run vanishes and
      an odd one leaves a single dot. */
  lemma {:induction false} RemoveDotPairsRun(m: nat, b: nat, s: string)
    requires b <= 1
    requires s == [] || s[0] != '.'
    ensures RemoveDotPairs(Dots(2 * m + b) + s) == Dots(b) + RemoveDotPairs(s)
    decreases m
  {
    if m > 0 {
      var k := 2 * (m - 1) + b;
      DotsPair(k, s);
      DropDotPair(Dots(k) + s);
      RemoveDotPairsRun(m - 1, b, s);
    } else if b == 1 {
      LoneDot(s);
    } else {
      assert Dots(0) + s == s;
    }
  }

  /** `k + 2` dots are a pair followed by `k` dots. */
  lemma DotsPair(k: nat, s: string)
    ensures Dots(k + 2) + s == ".." + (Dots(k) + s)
  {
  }

  /** A leading pair of dots is deleted. */
  lemma DropDotPair(x: string)
    ensures RemoveDotPairs(".." + x) == RemoveDotPairs(x)
  {
    assert (".." + x)[2..] == x;
  }

  /** A dot not followed by another is kept. */
  lemma LoneDot(s: string)
    requires s == [] || s[0] != '.'
    ensures RemoveDotPairs(Dots(1) + s) == Dots(1) + RemoveDotPairs(s)
  {
    assert Dots(1) == ".";
    assert ("." + s)[1..] == s;
  }

  /** The length cap of `substring(0, 255)`. */
  const MaxFileNameLength := 255

  /** `sanitizeFileName`: the name without forbidden characters and dot pairs,
      its characters in order; every other character survives unless the cut
      to 255 characters was needed, and a clean name comes back unchanged. */
  function SanitizeFileName(fileName: string): (r: string)
    ensures fileName == [] ==> r == []
    ensures |r| <= MaxFileNameLength
    ensures NoForbidden(r)
    ensures NoDoubleDot(r)
    ensures IsSubsequence(r, fileName)
    ensures |RemoveDotPairs(RemoveForbidden(fileName))| <= MaxFileNameLength ==>
      forall c :: !IsFileNameForbidden(c) && c != '.' ==> multiset(r)[c] == multiset(fileName)[c]
    ensures |RemoveDotPairs(RemoveForbidden(fileName))| > MaxFileNameLength ==> |r| == MaxFileNameLength
    ensures |fileName| <= MaxFileNameLength && NoDoubleDot(fileName) && NoForbidden(fileName) ==> r == fileName
  {
    if fileName == [] then []
    else
      var kept := RemoveForbidden(fileName);
      var undotted := RemoveDotPairs(kept);
      RemoveDotPairsLeavesNoDoubleDot(kept);
      SanitizeFileNameKeeps(fileName);
      Substring0(undotted, MaxFileNameLength)
  }

  /** The facts `SanitizeFileName` rests on, stage by stage. */
  lemma SanitizeFileNameKeeps(fileName: string)
    ensures var u := RemoveDotPairs(RemoveForbidden(fileName));
      IsSubsequence(Substring0(u, MaxFileNameLength), fileName)
    ensures var u := RemoveDotPairs(RemoveForbidden(fileName));
      |u| > MaxFileNameLength ||
      forall c :: !IsFileNameForbidden(c) && c != '.' ==> multiset(Substring0(u, MaxFileNameLength))[c] == multiset(fileName)[c]
    ensures |fileName| <= MaxFileNameLength && NoDoubleDot(fileName) && NoForbidden(fileName) ==>
      Substring0(RemoveDotPairs(RemoveForbidden(fileName)), MaxFileNameLength) == fileName
  {
    var kept := RemoveForbidden(fileName);
    var u := RemoveDotPairs(kept);
    var r := Substring0(u, MaxFileNameLength);
    RemoveForbiddenKeepsOrder(fileName);
    RemoveDotPairsKeepsOrder(kept);
    SubsequenceTrans(u, kept, fileName);
    SubsequencePrefix(u, |r|);
    SubsequenceTrans(r, u, fileName);
    forall c | !IsFileNameForbidden(c) && c != '.'
      ensures multiset(u)[c] == multiset(fileName)[c]
    {
      RemoveForbiddenKeepsAllowed(fileName, c);
      RemoveDotPairsKeepsOthers(kept, c);
    }
    if |fileName| <= MaxFileNameLength && NoDoubleDot(fileName) && NoForbidden(fileName) {
      RemoveForbiddenFixesClean(fileName);
      RemoveDotPairsFixesSingle(fileName);
    }
  }

  // ---------------------------------------------------------------------------
  // validateUrl (lib/utils.ts:54-80)
  // ---------------------------------------------------------------------------

  const AllowedProtocols: seq<string> := ["http:", "https:"]

  const DangerousSchemes: seq<string> := ["javascript:", "data:", "file:", "vbscript:"]

  lemma AnyContainedMeansOccurs(h: string, ds: seq<string>)
    ensures (exists d :: d in ds && Contains(h, d)) <==> (exists d, i :: d in ds && OccursAt(h, d, i))
  {
    forall d | d in ds {
      ContainsMeansOccurs(h, d);
    }
  }

  /** `validateUrl`; `parseUrl` stands for `new URL(...)`, `None` for a throw.
      `href.toLowerCase()` is the ASCII `Lower`, which is exact because the
      URL serialiser's `href` is ASCII. */
  function ValidateUrl(url: string, parseUrl: string -> Option<UrlParts>): (ok: bool)
    ensures ok <==>
      && url != []
      && parseUrl(url).Some?
      && parseUrl(url).value.protocol in AllowedProtocols
      && forall d, i :: d in DangerousSchemes ==> !OccursAt(Lower(parseUrl(url).value.href), d, i)
  {
    if url == [] then false
    else match parseUrl(url)
      case None => false
      case Some(u) =>
        if u.protocol !in AllowedProtocols then false
        else
          var href := Lower(u.href);
          AnyContainedMeansOccurs(href, DangerousSchemes);
          !exists d :: d in DangerousSchemes && Contains(href, d)
  }

  // ---------------------------------------------------------------------------
  // sanitizeJsonData (lib/utils.ts:100-118)
  // ---------------------------------------------------------------------------

  /** Object `obj` has a member named `k`. */
  predicate HasKey(obj: seq<Member>, k: string) {
    exists i :: 0 <= i < |obj| && obj[i].key == k
  }

  predicate UniqueKeys(obj: seq<Member>) {
    forall i, j :: 0 <= i < j < |obj| ==> obj[i].key != obj[j].key
  }

  /** Position of the first member named `key` at or after `from`. */
  function IndexOfKey(obj: seq<Member>, key: string, from: nat): (r: Option<nat>)
    decreases |obj| - from
    ensures r.Some? ==> from <= r.value < |obj| && obj[r.value].key == key
    ensures r.None? ==> forall j :: from <= j < |obj| ==> obj[j].key != key
  {
    if from >= |obj| then None
    else if obj[from].key == key then Some(from)
    else IndexOfKey(obj, key, from + 1)
  }

  // An object is modelled by its own properties in the order `Object.entries`
  // lists them: the array-index keys first, by ascending value, then the other
  // keys in the order they were created.

  predicate AllDigits(k: string) {
    forall i :: 0 <= i < |k| ==> IsDigit(k[i])
  }

  /** An array index (section 6.1.7 of ECMA-262): the canonical decimal text of
      an integer below 2^32 - 1, so "2" is one and "02" or "4294967295" are not. */
  predicate IsArrayIndex(k: string) {
    AllDigits(k) && NatToString(DecimalValue(k)) == k && DecimalValue(k) < 0xFFFF_FFFF
  }

  function IndexValue(k: string): nat
    requires IsArrayIndex(k)
  {
    DecimalValue(k)
  }

  /** The order of `[[OwnPropertyKeys]]` for string keys: no array index comes
      after another key, and the array indices ascend. */
  predicate PropertyOrdered(obj: seq<Member>) {
    forall i, j :: 0 <= i < j < |obj| && IsArrayIndex(obj[j].key) ==>
      IsArrayIndex(obj[i].key) && IndexValue(obj[i].key) < IndexValue(obj[j].key)
  }

  /** The accessor property that every object inherits from `Object.prototype`. */
  const ProtoKey := "__proto__"

  /** Where a new array index of value `v` is listed: after the indices below it. */
  function IndexSlot(obj: seq<Member>, v: nat, from: nat): (p: nat)
    requires from <= |obj|
    decreases |obj| - from
    ensures from <= p <= |obj|
    ensures forall i :: from <= i < p ==> IsArrayIndex(obj[i].key) && IndexValue(obj[i].key) < v
    ensures p < |obj| ==> !IsArrayIndex(obj[p].key) || IndexValue(obj[p].key) >= v
  {
    if from == |obj| || !IsArrayIndex(obj[from].key) || IndexValue(obj[from].key) >= v then from
    else IndexSlot(obj, v, from + 1)
  }

  /** The assignment `obj[key] = value` on an object that started as `{}`.
      `__proto__` runs the inherited setter: it changes the prototype and
      creates no own property. An existing key keeps its place and takes the
      new value; a new array index is listed among the indices by its value,
      and any other new key after all the others. */
  function SetMember(obj: seq<Member>, key: string, value: Json): seq<Member> {
    if key == ProtoKey then obj
    else match IndexOfKey(obj, key, 0)
      case Some(p) => obj[p := Member(key, value)]
      case None =>
        if IsArrayIndex(key) then
          var p := IndexSlot(obj, IndexValue(key), 0);
          obj[..p] + [Member(key, value)] + obj[p..]
        else obj + [Member(key, value)]
  }

  /** A key is present exactly when some member carries it. */
  lemma HasKeyMember(obj: seq<Member>, k: string)
    ensures HasKey(obj, k) <==> exists m :: m in obj && m.key == k
  {
    if exists m :: m in obj && m.key == k {
      var m :| m in obj && m.key == k;
      var i :| 0 <= i < |obj| && obj[i] == m;
    }
  }

  /** The members of the object after the assignment: `key: value`, unless the
      key is `__proto__`, and exactly the old members under the other keys. */
  lemma SetMemberMembers(obj: seq<Member>, key: string, value: Json)
    ensures key == ProtoKey ==> SetMember(obj, key, value) == obj
    ensures key != ProtoKey ==> Member(key, value) in SetMember(obj, key, value)
    ensures forall m: Member :: m.key != key ==> (m in SetMember(obj, key, value) <==> m in obj)
    ensures key != ProtoKey && !IsArrayIndex(key) && !HasKey(obj, key) ==>
      SetMember(obj, key, value) == obj + [Member(key, value)]
  {
    var r := SetMember(obj, key, value);
    if key != ProtoKey {
      match IndexOfKey(obj, key, 0)
      case Some(p) =>
        assert r == obj[p := Member(key, value)];
        assert r[p] == Member(key, value);
        forall m: Member | m.key != key ensures m in r <==> m in obj {
          if m in r {
            var i :| 0 <= i < |r| && r[i] == m;
            assert obj[i] == m;
          }
          if m in obj {
            var i :| 0 <= i < |obj| && obj[i] == m;
            assert r[i] == m;
          }
        }
      case None =>
        if IsArrayIndex(key) {
          var p := IndexSlot(obj, IndexValue(key), 0);
          assert r == obj[..p] + [Member(key, value)] + obj[p..];
          assert obj == obj[..p] + obj[p..];
        } else {
          assert r == obj + [Member(key, value)];
        }
    }
  }

  /** After the assignment the object has its old keys and `key`, except that
      `__proto__` adds none, and keys that were distinct stay distinct. */
  lemma SetMemberKeys(obj: seq<Member>, key: string, value: Json)
    ensures forall k :: HasKey(SetMember(obj, key, value), k) <==> HasKey(obj, k) || (k == key && key != ProtoKey)
    ensures UniqueKeys(obj) ==> UniqueKeys(SetMember(obj, key, value))
  {
    var r := SetMember(obj, key, value);
    SetMemberMembers(obj, key, value);
    forall k ensures HasKey(r, k) <==> HasKey(obj, k) || (k == key && key != ProtoKey) {
      HasKeyMember(r, k);
      HasKeyMember(obj, k);
      if k == key && key != ProtoKey {
        assert Member(key, value) in r;
      }
    }
    if UniqueKeys(obj) && key != ProtoKey {
      match IndexOfKey(obj, key, 0)
      case Some(p) =>
        assert forall i :: 0 <= i < |r| ==> r[i].key == obj[i].key;
      case None =>
        if IsArrayIndex(key) {
          InsertKeepsUnique(obj, IndexSlot(obj, IndexValue(key), 0), Member(key, value));
        } else {
          assert r == obj + [Member(key, value)];
        }
    }
  }

  /** Inserting a member under a new key keeps the keys distinct. */
  lemma InsertKeepsUnique(obj: seq<Member>, p: nat, m: Member)
    requires p <= |obj| && UniqueKeys(obj) && !HasKey(obj, m.key)
    ensures UniqueKeys(obj[..p] + [m] + obj[p..])
  {
    var r := obj[..p] + [m] + obj[p..];
    forall i | 0 <= i < |r| ensures r[i] == if i < p then obj[i] else if i == p then m else obj[i - 1] {
    }
  }

  /** The assignment keeps the properties in `Object.entries` order. */
  lemma SetMemberOrdered(obj: seq<Member>, key: string, value: Json)
    requires PropertyOrdered(obj)
    ensures PropertyOrdered(SetMember(obj, key, value))
  {
    var r := SetMember(obj, key, value);
    if key != ProtoKey {
      match IndexOfKey(obj, key, 0)
      case Some(p) =>
        assert forall i :: 0 <= i < |r| ==> r[i].key == obj[i].key;
      case None =>
        if IsArrayIndex(key) {
          var p := IndexSlot(obj, IndexValue(key), 0);
          InsertIndexOrdered(obj, p, Member(key, value));
        } else {
          assert r == obj + [Member(key, value)];
        }
    }
  }

  /** An array index placed after the smaller indices and before the rest keeps the order. */
  lemma InsertIndexOrdered(obj: seq<Member>, p: nat, m: Member)
    requires PropertyOrdered(obj) && IsArrayIndex(m.key) && !HasKey(obj, m.key)
    requires p <= |obj|
    requires forall i :: 0 <= i < p ==> IsArrayIndex(obj[i].key) && IndexValue(obj[i].key) < IndexValue(m.key)
    requires p < |obj| ==> !IsArrayIndex(obj[p].key) || IndexValue(obj[p].key) >= IndexValue(m.key)
    ensures PropertyOrdered(obj[..p] + [m] + obj[p..])
  {
    var r := obj[..p] + [m] + obj[p..];
    var v := IndexValue(m.key);
    assert forall i :: 0 <= i < |r| ==> r[i] == if i < p then obj[i] else if i == p then m else obj[i - 1];
    if p < |obj| {
      // an array index is the text of its value, so a different key has a different value
      assert obj[p].key != m.key;
    }
    forall i, j | 0 <= i < j < |r| && IsArrayIndex(r[j].key)
      ensures IsArrayIndex(r[i].key) && IndexValue(r[i].key) < IndexValue(r[j].key)
    {
      if i == p && j > p + 1 {
        assert IsArrayIndex(obj[p].key) && IndexValue(obj[p].key) < IndexValue(obj[j - 1].key);
      }
    }
  }

  /** The object that the assignments `obj[keys[i]] = values[i]`, for `i` from
      0 to `n - 1`, build from an empty object. */
  function BuildObject(keys: seq<string>, values: seq<Json>, n: nat): seq<Member>
    requires n <= |keys| && n <= |values|
  {
    if n == 0 then [] else SetMember(BuildObject(keys, values, n - 1), keys[n - 1], values[n - 1])
  }

  /** The built object has exactly the assigned keys other than `__proto__`,
      each once, in `Object.entries` order. */
  lemma {:induction false} BuildObjectKeys(keys: seq<string>, values: seq<Json>, n: nat)
    requires n <= |keys| && n <= |values|
    ensures forall k :: HasKey(BuildObject(keys, values, n), k) <==> k in keys[..n] && k != ProtoKey
    ensures UniqueKeys(BuildObject(keys, values, n))
    ensures PropertyOrdered(BuildObject(keys, values, n))
  {
    if n > 0 {
      BuildObjectKeys(keys, values, n - 1);
      SetMemberKeys(BuildObject(keys, values, n - 1), keys[n - 1], values[n - 1]);
      SetMemberOrdered(BuildObject(keys, values, n - 1), keys[n - 1], values[n - 1]);
      assert keys[..n] == keys[..n - 1] + [keys[n - 1]];
    }
  }

  /** The last assignment to a key decides its value: `keys[j]: values[j]` is
      a member when no later assignment uses the same key. */
  lemma {:induction false} BuildObjectLastWins(keys: seq<string>, values: seq<Json>, n: nat, j: nat)
    requires n <= |keys| && n <= |values|
    requires j < n && keys[j] != ProtoKey
    requires forall l :: j < l < n ==> keys[l] != keys[j]
    ensures Member(keys[j], values[j]) in BuildObject(keys, values, n)
  {
    SetMemberMembers(BuildObject(keys, values, n - 1), keys[n - 1], values[n - 1]);
    if j < n - 1 {
      BuildObjectLastWins(keys, values, n - 1, j);
    }
  }

  /** With distinct keys that are neither array indices nor `__proto__`, every
      assignment appends: member `i` is `keys[i]: values[i]`. */
  lemma {:induction false} BuildObjectPointwise(keys: seq<string>, values: seq<Json>, n: nat)
    requires n <= |keys| && n <= |values|
    requires forall i, j :: 0 <= i < j < n ==> keys[i] != keys[j]
    requires forall i :: 0 <= i < n ==> keys[i] != ProtoKey && !IsArrayIndex(keys[i])
    ensures |BuildObject(keys, values, n)| == n
    ensures forall i :: 0 <= i < n ==> BuildObject(keys, values, n)[i] == Member(keys[i], values[i])
  {
    if n > 0 {
      BuildObjectPointwise(keys, values, n - 1);
      var prev := BuildObject(keys, values, n - 1);
      LastKeyIsNew(keys, values, n);
      NewKeyAppends(prev, keys[n - 1], values[n - 1]);
      assert BuildObject(keys, values, n) == prev + [Member(keys[n - 1], values[n - 1])];
    }
  }

  /** With distinct keys, the last one is not yet in the object the others built. */
  lemma LastKeyIsNew(keys: seq<string>, values: seq<Json>, n: nat)
    requires 0 < n <= |keys| && n <= |values|
    requires forall i, j :: 0 <= i < j < n ==> keys[i] != keys[j]
    ensures !HasKey(BuildObject(keys, values, n - 1), keys[n - 1])
  {
    BuildObjectKeys(keys, values, n - 1);
    assert keys[n - 1] !in keys[..n - 1];
  }

  /** A new key that is neither an array index nor `__proto__` is appended. */
  lemma NewKeyAppends(obj: seq<Member>, key: string, value: Json)
    requires key != ProtoKey && !IsArrayIndex(key) && !HasKey(obj, key)
    ensures SetMember(obj, key, value) == obj + [Member(key, value)]
  {
    SetMemberMembers(obj, key, value);
  }

  /** `{"a": 1}` and then the key "2": the array index is listed first. */
  lemma IndexKeyListedFirst(a: string, two: string, v: Json, w: Json)
    requires a == "a" && two == "2"
    ensures SetMember([Member(a, v)], two, w) == [Member(two, w), Member(a, v)]
  {
    assert NatToString(DecimalValue(two)) == two;
    assert !IsArrayIndex(a);
    assert IndexSlot([Member(a, v)], IndexValue(two), 0) == 0;
  }

  /** The sanitized form of every key of an object, in order. */
  function SanitizedKeys(members: seq<Member>): (ks: seq<string>)
    ensures |ks| == |members|
  {
    seq(|members|, i requires 0 <= i < |members| => StrictSanitizeInput(members[i].key))
  }

  /** The JSON value `sanitizeJsonData` returns. */
  function Sanitized(j: Json): Json
    decreases j
  {
    match j
    case JString(s) => JString(StrictSanitizeInput(s))
    case JArray(items) => JArray(seq(|items|, i requires 0 <= i < |items| => Sanitized(items[i])))
    case JObject(members) =>
      JObject(BuildObject(SanitizedKeys(members), SanitizedValues(members), |members|))
    case _ => j
  }

  /** The sanitized value of every member of an object, in order. */
  function SanitizedValues(members: seq<Member>): (vs: seq<Json>)
    ensures |vs| == |members|
    decreases JObject(members), 0
  {
    seq(|members|, i requires 0 <= i < |members| =>
      assert members[i] in members; Sanitized(members[i].value))
  }

  /** `sanitizeJsonData`, with the `for` loop of its object branch. */
  method SanitizeJsonData(data: Json) returns (r: Json)
    ensures r == Sanitized(data)
    decreases data
  {
    match data {
      case JString(s) =>
        r := JString(StrictSanitizeInput(s));
      case JArray(items) =>
        // `data.map(item => sanitizeJsonData(item))`
        var out: seq<Json> := [];
        for i := 0 to |items|
          invariant out == seq(i, k requires 0 <= k < i => Sanitized(items[k]))
        {
          assert items[i] in items;
          var v := SanitizeJsonData(items[i]);
          out := out + [v];
        }
        r := JArray(out);
      case JObject(members) =>
        ghost var keys, values := SanitizedKeys(members), SanitizedValues(members);
        var sanitized: seq<Member> := [];
        for i := 0 to |members|
          invariant sanitized == BuildObject(keys, values, i)
        {
          assert members[i] in members;
          var v := SanitizeJsonData(members[i].value);
          sanitized := SetMember(sanitized, StrictSanitizeInput(members[i].key), v);
        }
        r := JObject(sanitized);
      case _ =>
        r := data;
    }
  }

  /** Strings, arrays and scalars: what `sanitizeJsonData` does to each kind of value. */
  lemma SanitizedShape(j: Json)
    ensures j.JString? ==> Sanitized(j) == JString(StrictSanitizeInput(j.s))
    ensures j.JArray? ==> Sanitized(j).JArray? && |Sanitized(j).items| == |j.items|
    ensures j.JArray? ==> forall i :: 0 <= i < |j.items| ==> Sanitized(j).items[i] == Sanitized(j.items[i])
    ensures j.JNull? || j.JBool? || j.JNumber? ==> Sanitized(j) == j
    ensures j.JObject? ==> Sanitized(j).JObject?
  {
  }

  /** The keys of a sanitized object are exactly the sanitized keys of the
      original other than `__proto__`, each once, in `Object.entries` order. */
  lemma SanitizedObjectKeys(members: seq<Member>)
    ensures Sanitized(JObject(members)).JObject?
    ensures forall k :: HasKey(Sanitized(JObject(members)).members, k) <==> k in SanitizedKeys(members) && k != ProtoKey
    ensures UniqueKeys(Sanitized(JObject(members)).members)
    ensures PropertyOrdered(Sanitized(JObject(members)).members)
  {
    var keys := SanitizedKeys(members);
    BuildObjectKeys(keys, SanitizedValues(members), |members|);
    assert keys[..|members|] == keys;
  }

  /** Of members whose keys sanitize alike, the last one decides the value. */
  lemma SanitizedObjectLastWins(members: seq<Member>, j: nat)
    requires j < |members| && StrictSanitizeInput(members[j].key) != ProtoKey
    requires forall l :: j < l < |members| ==> StrictSanitizeInput(members[l].key) != StrictSanitizeInput(members[j].key)
    ensures Sanitized(JObject(members)).JObject?
    ensures Member(StrictSanitizeInput(members[j].key), Sanitized(members[j].value)) in Sanitized(JObject(members)).members
  {
    var keys, values := SanitizedKeys(members), SanitizedValues(members);
    assert keys[j] == StrictSanitizeInput(members[j].key) && values[j] == Sanitized(members[j].value);
    BuildObjectLastWins(keys, values, |members|, j);
  }

  /** When sanitizing merges no two keys and yields no array index and no
      `__proto__`, the object keeps its members in order, each key and each
      value sanitized. */
  lemma SanitizedObjectPointwise(members: seq<Member>)
    requires forall i, j :: 0 <= i < j < |members| ==> SanitizedKeys(members)[i] != SanitizedKeys(members)[j]
    requires forall i :: 0 <= i < |members| ==>
      SanitizedKeys(members)[i] != ProtoKey && !IsArrayIndex(SanitizedKeys(members)[i])
    ensures Sanitized(JObject(members)).JObject?
    ensures |Sanitized(JObject(members)).members| == |members|
    ensures forall i :: 0 <= i < |members| ==>
      Sanitized(JObject(members)).members[i] == Member(StrictSanitizeInput(members[i].key), Sanitized(members[i].value))
  {
    var keys, values := SanitizedKeys(members), SanitizedValues(members);
    BuildObjectPointwise(keys, values, |members|);
    forall i | 0 <= i < |members|
      ensures Sanitized(JObject(members)).members[i] == Member(StrictSanitizeInput(members[i].key), Sanitized(members[i].value))
    {
      assert keys[i] == StrictSanitizeInput(members[i].key);
      assert values[i] == Sanitized(members[i].value);
    }
  }

  // ---------------------------------------------------------------------------
  // Properties the sanitizer does not have
  // ---------------------------------------------------------------------------

  /** A scan in which the pattern matches nowhere keeps the whole string. */
  lemma {:induction false} StripMatchesNowhere(s: string, m: string -> Option<nat>)
    requires forall t :: m(t).Some? ==> 0 < m(t).value <= |t|
    requires forall i :: 0 <= i < |s| ==> m(s[i..]).None?
    ensures StripMatches(s, m) == s
  {
    if s != [] {
      assert m(s[0..]).None? && s[0..] == s;
      forall i | 0 <= i < |s[1..]| ensures m(s[1..][i..]).None? {
        assert s[1..][i..] == s[i + 1..];
      }
      StripMatchesNowhere(s[1..], m);
    }
  }

  /** A string without an `o` or `O` holds no event handler. */
  lemma EventHandlersNeedO(s: string)
    requires forall k :: 0 <= k < |s| ==> LowerChar(s[k]) != 'o'
    ensures StripEventHandlers(s) == s
  {
    forall i | 0 <= i < |s| ensures EventMatch(s[i..]).None? {
      assert s[i..][0] == s[i];
    }
    StripMatchesNowhere(s, EventMatch);
  }

  /** A string without any of the letters `j`, `v`, `d`, `f` (either case) holds no protocol token. */
  lemma ProtocolsNeedInitial(s: string)
    requires forall k :: 0 <= k < |s| ==> LowerChar(s[k]) !in "jvdf"
    ensures StripProtocols(s) == s
  {
    forall i | 0 <= i < |s| ensures ProtocolMatch(s[i..]).None? {
      assert s[i..][0] == s[i];
    }
    StripMatchesNowhere(s, ProtocolMatch);
  }

  /** Escaping leaves alone a string without the characters it replaces. */
  lemma {:induction false} ExpandStrictKeeps(s: string)
    requires forall k :: 0 <= k < |s| ==> !IsMarkupChar(s[k]) && s[k] != '&' && s[k] != '\\'
    ensures Expand(s, EntityStrict) == s
  {
    if s != [] {
      ExpandStrictKeeps(s[1..]);
    }
  }

  /** No stage of the strict sanitizer touches the characters of `s`. */
  predicate Untouched(s: string) {
    forall k :: 0 <= k < |s| ==>
      LowerChar(s[k]) != 'o' && LowerChar(s[k]) !in "jvdf" &&
      s[k] != '&' && s[k] != '\\' && !IsMarkupChar(s[k])
  }

  /** A string that no stage touches comes back unchanged. */
  lemma StrictSanitizeKeeps(s: string)
    requires Untouched(s)
    ensures StrictSanitizeInput(s) == s
  {
    EventHandlersNeedO(s);
    ProtocolsNeedInitial(s);
    StripTagsWithoutClose(s);
    ExpandStrictKeeps(s);
  }

  /** The entity of `&` followed by the tail of that entity. */
  lemma AmpEntitySplit(t: string)
    ensures "&" + ("amp;" + t) == "&amp;" + t
    ensures "&amp;" + ("amp;" + t) == "&amp;amp;" + t
  {
    assert "&" + "amp;" == "&amp;";
    assert "&amp;" + "amp;" == "&amp;amp;";
  }

  /** Untouched text stays untouched under concatenation. */
  lemma UntouchedAppend(a: string, b: string)
    requires Untouched(a) && Untouched(b)
    ensures Untouched(a + b)
  {
    forall k | 0 <= k < |a + b| ensures (a + b)[k] == if k < |a| then a[k] else b[k - |a|] {
    }
  }

  /** An ampersand in front of untouched text becomes its entity and the text stays. */
  lemma StrictSanitizeAmpPrefix(t: string)
    requires Untouched(t)
    ensures StrictSanitizeInput("&" + t) == "&amp;" + t
  {
    var s := "&" + t;
    forall k | 0 <= k < |s|
      ensures LowerChar(s[k]) != 'o' && LowerChar(s[k]) !in "jvdf" && !IsMarkupChar(s[k])
    {
      if k > 0 {
        assert s[k] == t[k - 1];
      }
    }
    EventHandlersNeedO(s);
    ProtocolsNeedInitial(s);
    StripTagsWithoutClose(s);
    assert s[1..] == t;
    ExpandStrictKeeps(t);
  }

  /** Sanitizing is not idempotent: the entity produced by one call has its
      ampersand escaped again by the next. */
  lemma StrictSanitizeIsNotIdempotent(t: string)
    requires Untouched(t)
    ensures StrictSanitizeInput(StrictSanitizeInput("&" + t)) == "&amp;amp;" + t
    ensures StrictSanitizeInput(StrictSanitizeInput("&" + t)) != StrictSanitizeInput("&" + t)
  {
    StrictSanitizeAmpPrefix(t);
    var u := "amp;" + t;
    UntouchedAppend("amp;", t);
    StrictSanitizeAmpPrefix(u);
    AmpEntitySplit(t);
    assert |"&amp;amp;" + t| != |"&amp;" + t|;
  }
}
