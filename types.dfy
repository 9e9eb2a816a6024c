/**
 * The shared record types of the application (types/index.ts), as values.
 * Field names follow the JSON keys in Dafny's camel case.
 */
module Types {
  import opened Common

  // ---------------------------------------------------------------------------
  // Analysis result (types/index.ts:10-35)
  // ---------------------------------------------------------------------------

  datatype LearningPathStep = LearningPathStep(
    step: int,
    topic: string,
    description: string,
    resources: seq<string>)

  datatype KnowledgeMap = KnowledgeMap(
    coreConcepts: seq<string>,
    prerequisites: seq<string>,
    difficultyLevel: string,
    estimatedTime: string,
    learningPath: seq<LearningPathStep>)

  /** A directed prerequisite edge between two topic names. */
  datatype Dependency = Dependency(from: string, to: string, relationship: string)

  datatype AnalysisResult = AnalysisResult(
    problem: string,
    knowledgeMap: KnowledgeMap,
    dependencies: seq<Dependency>)

  // ---------------------------------------------------------------------------
  // Contact form (types/index.ts:52-57, 88)
  // ---------------------------------------------------------------------------

  datatype ContactFormData = ContactFormData(
    name: string,
    email: string,
    subject: string,
    message: string)

  /** `SubmitStatus` (types/index.ts:88). */
  datatype SubmitStatus = StatusIdle | StatusSuccess | StatusError

  // ---------------------------------------------------------------------------
  // Rate limiting (types/index.ts:181-191)
  // ---------------------------------------------------------------------------

  /** One value of the `RateLimitStore` dictionary. */
  datatype RateLimitEntry = RateLimitEntry(count: int, resetTime: int)

  datatype RateLimitInfo = RateLimitInfo(remaining: int, resetTime: int)

  // ---------------------------------------------------------------------------
  // Prompt input (types/index.ts:197-200)
  // ---------------------------------------------------------------------------

  /** Both fields are optional; an absent field is `None`. */
  datatype PromptInputContent = PromptInputContent(text: Option<string>, hasImage: Option<bool>)

  // ---------------------------------------------------------------------------
  // Error modal (types/index.ts:217-233)
  // ---------------------------------------------------------------------------

  datatype ErrorType = Error | Warning | Info | Success

  datatype ActionVariant = Primary | Secondary | Danger

  /** A button of the modal; its click callback is not part of the model. */
  datatype ErrorAction = ErrorAction(labelText: string, variant: Option<ActionVariant>)

  datatype ErrorModalData = ErrorModalData(
    id: string,
    kind: ErrorType,
    title: string,
    message: string,
    details: Option<string>,
    timestamp: int,
    actions: seq<ErrorAction>)
}
