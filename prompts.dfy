/**
 * The prompt builders of lib/prompts/analysis.ts.
 *
 * `buildInputContent` accumulates its result with `+=`, so it is a method
 * proved against the case-by-case description `InputContent`. The template's
 * `replace("{inputContent}", content)` is a plain first-occurrence
 * substitution here: the `$` patterns of `String.prototype.replace` are not
 * part of this model.
 */
module AnalysisPrompts {
  import opened Common
  import opened Types

  // ---------------------------------------------------------------------------
  // Fixed text (lib/prompts/analysis.ts:11-86)
  // ---------------------------------------------------------------------------

  /** `systemInstruction` of the template object. */
  const SystemInstruction: string :=
    "\n" +
    "あなたは問題解析の専門家です。\n" +
    "与えられた問題を分析し、解決に必要な知識を構造化して提示することが得意です。\n" +
    "回答は必ずJSON形式で返してください。\n"

  /** The placeholder of the user prompt template. */
  const Placeholder: string := "{inputContent}"

  /** The user prompt template before its placeholder. */
  const PromptHead: string :=
    "\n" +
    "以下の問題を分析して、解決に必要な知識をJSON形式で返してください。\n" +
    "\n" +
    "問題内容:\n"

  /** The user prompt template after its placeholder. */
  const PromptTail: string :=
    "\n" +
    "\n" +
    "以下の形式でJSONを返してください:\n" +
    "{\n" +
    "  \"problem\": \"問題の要約\",\n" +
    "  \"knowledgeMap\": {\n" +
    "    \"core_concepts\": [\"必要な核心概念1\", \"必要な核心概念2\"],\n" +
    "    \"prerequisites\": [\"前提知識1\", \"前提知識2\"],\n" +
    "    \"difficulty_level\": \"初級/中級/上級\",\n" +
    "    \"estimated_time\": \"推定学習時間\",\n" +
    "    \"learning_path\": [\n" +
    "      {\n" +
    "        \"step\": 1,\n" +
    "        \"topic\": \"学習トピック\",\n" +
    "        \"description\": \"説明\",\n" +
    "        \"resources\": [\"リソース1\", \"リソース2\"]\n" +
    "      }\n" +
    "    ]\n" +
    "  },\n" +
    "  \"dependencies\": [\n" +
    "    {\n" +
    "      \"from\": \"前提項目\",\n" +
    "      \"to\": \"依存項目\", \n" +
    "      \"relationship\": \"prerequisite\"\n" +
    "    }\n" +
    "  ]\n" +
    "}\n" +
    "\n" +
    "注意事項:\n" +
    "- 問題の難易度は「初級」「中級」「上級」のいずれかで判定してください\n" +
    "- 学習時間は現実的な期間を設定してください（例：「2-4週間」「1-3ヶ月」）\n" +
    "- 学習パスは論理的な順序で構成してください\n" +
    "- リソースは具体的で実用的なものを提案してください\n"

  /** `userPromptTemplate` of the template object. */
  const UserPromptTemplate: string := PromptHead + Placeholder + PromptTail

  /** `fallbackPrompt` of the template object. */
  const FallbackPrompt: string :=
    "\n" +
    "問題を分析しましたが、詳細な情報が不足しています。\n" +
    "一般的な問題解決アプローチを提示します。\n" +
    "\n" +
    "{\n" +
    "  \"problem\": \"問題解決のアプローチ\",\n" +
    "  \"knowledgeMap\": {\n" +
    "    \"core_concepts\": [\"問題分析\", \"解決策の検討\", \"実装計画\"],\n" +
    "    \"prerequisites\": [\"基本的な分析スキル\"],\n" +
    "    \"difficulty_level\": \"中級\",\n" +
    "    \"estimated_time\": \"2-4週間\",\n" +
    "    \"learning_path\": [\n" +
    "      {\n" +
    "        \"step\": 1,\n" +
    "        \"topic\": \"問題の理解\",\n" +
    "        \"description\": \"問題の本質を把握し、要件を整理する\",\n" +
    "        \"resources\": [\"問題解決フレームワーク\", \"要件定義手法\"]\n" +
    "      }\n" +
    "    ]\n" +
    "  },\n" +
    "  \"dependencies\": [\n" +
    "    {\n" +
    "      \"from\": \"問題の理解\",\n" +
    "      \"to\": \"解決策の検討\",\n" +
    "      \"relationship\": \"prerequisite\"\n" +
    "    }\n" +
    "  ]\n" +
    "}\n"

  /** `getFallbackPrompt` (lib/prompts/analysis.ts:124-126). */
  function GetFallbackPrompt(): string {
    FallbackPrompt
  }

  /** `getSystemInstruction` (lib/prompts/analysis.ts:131-133). */
  function GetSystemInstruction(): string {
    SystemInstruction
  }

  // ---------------------------------------------------------------------------
  // buildInputContent (lib/prompts/analysis.ts:91-107)
  // ---------------------------------------------------------------------------

  const TextLabel: string := "テキスト: "
  const ImageLine: string := "画像: [画像データが提供されています]"
  const NoInputSentence: string := "詳細な情報が提供されていません。一般的なアプローチを提示してください。"

  /** `data.text` is truthy: present and not empty. */
  predicate HasText(data: PromptInputContent) {
    data.text.Some? && data.text.value != []
  }

  /** `data.hasImage` is truthy. */
  predicate HasImage(data: PromptInputContent) {
    data.hasImage == Some(true)
  }

  /** What `buildInputContent` returns, case by case: the text line before the
      image line, each only when its field is truthy, and the fixed sentence
      when neither is. Only the trim of the whole can cut into the text. */
  function InputContent(data: PromptInputContent): string {
    if HasText(data) && HasImage(data) then TextLabel + data.text.value + "\n" + ImageLine
    else if HasText(data) then TrimEnd(TextLabel + data.text.value)
    else if HasImage(data) then ImageLine
    else NoInputSentence
  }

  /** A string starting with a letter of the label loses nothing at its start. */
  lemma TrimStartKeeps(s: string)
    requires s != [] && !IsSpace(s[0])
    ensures TrimStart(s) == s
  {
  }

  /** The accumulated text with both lines, trimmed. */
  lemma TrimBothLines(t: string)
    ensures Trim(TextLabel + t + "\n" + ImageLine + "\n") == TextLabel + t + "\n" + ImageLine
  {
    var whole := TextLabel + t + "\n" + ImageLine;
    assert TextLabel + t + "\n" + ImageLine + "\n" == whole + "\n";
    TrimStartKeeps(whole + "\n");
    TrimEndIgnoresTrailingSpace(whole, "\n");
  }

  /** The accumulated text line alone, trimmed. */
  lemma TrimTextLine(t: string)
    ensures Trim(TextLabel + t + "\n") == TrimEnd(TextLabel + t)
    ensures Trim(TextLabel + t + "\n") != []
  {
    var line := TextLabel + t;
    TrimStartKeeps(line + "\n");
    TrimEndIgnoresTrailingSpace(line, "\n");
    TrimEndKeepsUpTo(line, 0);
  }

  /** The accumulated image line alone, trimmed. */
  lemma TrimImageLine()
    ensures Trim(ImageLine + "\n") == ImageLine
  {
    TrimStartKeeps(ImageLine + "\n");
    TrimEndIgnoresTrailingSpace(ImageLine, "\n");
  }

  /** `buildInputContent`, with its `+=` steps. */
  method BuildInputContent(data: PromptInputContent) returns (r: string)
    ensures r == InputContent(data)
  {
    var inputContent := "";
    if HasText(data) {
      inputContent := inputContent + TextLabel + data.text.value + "\n";
    }
    if HasImage(data) {
      inputContent := inputContent + ImageLine + "\n";
    }
    // the trim of what was accumulated, case by case
    if HasText(data) && HasImage(data) {
      assert inputContent == TextLabel + data.text.value + "\n" + ImageLine + "\n";
      TrimBothLines(data.text.value);
    } else if HasText(data) {
      assert inputContent == TextLabel + data.text.value + "\n";
      TrimTextLine(data.text.value);
    } else if HasImage(data) {
      assert inputContent == ImageLine + "\n";
      TrimImageLine();
    } else {
      TrimStartKeeps(NoInputSentence);
    }
    if Trim(inputContent) == [] {
      inputContent := NoInputSentence;
    }
    r := Trim(inputContent);
  }

  /** The result never starts or ends with whitespace, and is never empty. */
  lemma InputContentIsTrimmed(data: PromptInputContent)
    ensures InputContent(data) != []
    ensures !IsSpace(InputContent(data)[0]) && !IsSpace(InputContent(data)[|InputContent(data)| - 1])
    ensures Trim(InputContent(data)) == InputContent(data)
  {
    var r := InputContent(data);
    if HasText(data) && !HasImage(data) {
      TrimEndKeepsUpTo(TextLabel + data.text.value, 0);
    }
    TrimOfTrimmed(r);
  }

  /** The result leads with the text line exactly when the text is truthy. */
  lemma InputContentTextFirst(data: PromptInputContent)
    ensures StartsWith(InputContent(data), "テキスト:") <==> HasText(data)
  {
    var r := InputContent(data);
    if HasText(data) && !HasImage(data) {
      TrimEndKeepsUpTo(TextLabel + data.text.value, 4);
    } else if !HasText(data) {
      assert r[0] != 'テ';
    }
  }

  /** The fixed sentence is the result exactly when neither field is truthy. */
  lemma InputContentPlaceholder(data: PromptInputContent)
    ensures InputContent(data) == NoInputSentence <==> !HasText(data) && !HasImage(data)
  {
    var r := InputContent(data);
    if HasText(data) && !HasImage(data) {
      TrimEndKeepsUpTo(TextLabel + data.text.value, 0);
      assert r[0] == 'テ';
    } else if HasText(data) {
      assert r[0] == 'テ';
    } else if HasImage(data) {
      assert |ImageLine| != |NoInputSentence|;
    }
  }

  /** With an image the image line is last, after the whole text line; without
      one the result is the text line, trimmed at its end. */
  lemma InputContentImageLast(data: PromptInputContent)
    ensures HasImage(data) ==> EndsWith(InputContent(data), ImageLine)
    ensures HasImage(data) && HasText(data) ==>
      StartsWith(InputContent(data), TextLabel + data.text.value + "\n")
    ensures !HasImage(data) && HasText(data) ==>
      var line := TextLabel + data.text.value;
      |InputContent(data)| <= |line| && InputContent(data) == line[..|InputContent(data)|]
      && AllSpace(line[|InputContent(data)|..])
  {
  }

  // ---------------------------------------------------------------------------
  // buildAnalysisPrompt (lib/prompts/analysis.ts:112-119)
  // ---------------------------------------------------------------------------

  /** `s.replace(pat, rep)` with a string pattern: the first occurrence only. */
  function ReplaceFirst(s: string, pat: string, rep: string): string {
    match IndexOfFrom(s, pat, 0)
    case None => s
    case Some(i) => s[..i] + rep + s[i + |pat|..]
  }

  /** When the text before a pattern holds no copy of its first character, the
      replacement lands exactly there. */
  lemma ReplaceFirstAfter(pre: string, pat: string, post: string, rep: string)
    requires pat != [] && forall j :: 0 <= j < |pre| ==> pre[j] != pat[0]
    ensures ReplaceFirst(pre + pat + post, pat, rep) == pre + rep + post
  {
    var s := pre + pat + post;
    assert OccursAt(s, pat, |pre|) by {
      assert s[|pre|..|pre| + |pat|] == pat;
    }
    forall j | 0 <= j < |pre| ensures !OccursAt(s, pat, j) {
      assert s[j] == pre[j];
    }
    var i := IndexOfFrom(s, pat, 0);
    assert i == Some(|pre|);
    assert s[..|pre|] == pre;
    assert s[|pre| + |pat|..] == post;
  }

  /** The template keeps its text on both sides of the one replaced placeholder. */
  lemma TemplateSubstitution(content: string)
    ensures ReplaceFirst(UserPromptTemplate, Placeholder, content) == PromptHead + content + PromptTail
  {
    assert forall j :: 0 <= j < |PromptHead| ==> PromptHead[j] != '{';
    ReplaceFirstAfter(PromptHead, Placeholder, PromptTail, content);
  }

  /** `buildAnalysisPrompt`. */
  method BuildAnalysisPrompt(data: PromptInputContent) returns (r: string)
    ensures r == PromptHead + InputContent(data) + PromptTail
  {
    var inputContent := BuildInputContent(data);
    r := ReplaceFirst(UserPromptTemplate, Placeholder, inputContent);
    TemplateSubstitution(inputContent);
  }
}
