/**
 * The two calls to the remote completion service, as decision logic.
 * The network call itself is a parameter: the outcome the remote side
 * produced, either a response (whose text may be absent) or a thrown error.
 */
module GeminiService {
  import opened Wrappers
  import opened Types
  import opened Text

  datatype RemoteOutcome = Ok(text: Option<string>) | Thrown

  /** What is sent: the system instruction and the user content. */
  datatype Request = Request(systemInstruction: string, contents: string)

  const ExecutionSystemPrompt: string :=
    "You are a Python kernel in a Jupyter notebook. \n"
    + "  The user will provide code. You must simulate the output as it would appear in a terminal or notebook cell. \n"
    + "  Include error messages if the code looks syntactically wrong. \n"
    + "  If the code is a snippet (like model definition), confirm it and show some metadata or a summary.\n"
    + "  Keep output concise and technical. Avoid conversational filler."

  const ExecutionPreamble: string := "Execute this code and provide the output:\n\n"
  const NoOutputText: string := "Execution finished with no output."
  const ExecutionErrorText: string := "Error: Could not simulate execution. Check your connectivity."

  const AssistantPromptHead: string :=
    "You are Aether Assistant, a world-class AI developer for machine learning and GPU cloud computing.\n"
    + "  Help users with code, model selection, dataset handling, and cloud architecture.\n"
    + "  Context: "
  const NoContextText: string := "None"
  const AssistantEmptyText: string := "I'm sorry, I couldn't process that request."
  const AssistantUnavailableText: string := "The assistant is currently unavailable."

  /** JavaScript's `text || fallback` on an optional string: absent and "" are both falsy. */
  function TextOr(text: Option<string>, fallback: string): (r: string)
    ensures text.Some? && text.value != "" ==> r == text.value
    ensures text.None? || text.value == "" ==> r == fallback
  {
    if text.Some? && text.value != "" then text.value else fallback
  }

  /**
   * The request `simulateCellExecution` sends, or None when it sends none.
   * A markdown cell never reaches the service; any other cell's code is sent
   * verbatim after a fixed preamble.
   */
  function ExecutionRequest(code: string, kind: CellType): (r: Option<Request>)
    ensures r.None? <==> kind == Markdown
    ensures r.Some? ==> r.value.systemInstruction == ExecutionSystemPrompt
    ensures r.Some? ==> IsPrefix(ExecutionPreamble, r.value.contents)
    ensures r.Some? ==> r.value.contents[|ExecutionPreamble|..] == code
  {
    if kind == Markdown then None else Some(Request(ExecutionSystemPrompt, ExecutionPreamble + code))
  }

  /**
   * `simulateCellExecution(code, cellType)`: "" for markdown without a call;
   * otherwise the response text, a fixed note when the text is empty or
   * absent, and a fixed error line when the call fails. It never fails itself.
   */
  function SimulateCellExecution(code: string, kind: CellType, outcome: RemoteOutcome): (r: string)
    ensures kind == Markdown ==> r == ""
    ensures kind == Code && outcome.Ok? ==> r == TextOr(outcome.text, NoOutputText)
    ensures kind == Code && outcome.Thrown? ==> r == ExecutionErrorText
  {
    if kind == Markdown then ""
    else match outcome
      case Ok(text) => TextOr(text, NoOutputText)
      case Thrown => ExecutionErrorText
  }

  /** The output of an execution is empty exactly when the cell is markdown. */
  lemma ExecutionOutputEmptyIffMarkdown(code: string, kind: CellType, outcome: RemoteOutcome)
    ensures SimulateCellExecution(code, kind, outcome) == "" <==> kind == Markdown
  {
  }

  /**
   * No request is made exactly when the remote outcome cannot matter:
   * for markdown every outcome gives the same output, and for code two
   * outcomes give different outputs.
   */
  lemma NoRequestIffOutcomeIrrelevant(code: string, kind: CellType)
    ensures ExecutionRequest(code, kind).None? <==>
      forall o1: RemoteOutcome, o2: RemoteOutcome :: SimulateCellExecution(code, kind, o1) == SimulateCellExecution(code, kind, o2)
  {
    if kind == Code {
      assert SimulateCellExecution(code, kind, Thrown) != SimulateCellExecution(code, kind, Ok(None));
    }
  }

  /** A successful non-empty response is passed through unchanged, so it is distinguishable from a failure unless the service itself answered with the error line. */
  lemma ExecutionFailureDistinguishable(code: string, text: string)
    requires text != "" && text != ExecutionErrorText
    ensures SimulateCellExecution(code, Code, Ok(Some(text))) == text
    ensures SimulateCellExecution(code, Code, Ok(Some(text))) != SimulateCellExecution(code, Code, Thrown)
  {
  }

  /** The assistant's system instruction: a fixed head followed by the context, or "None" when it is absent or empty. */
  function AssistantSystemPrompt(context: Option<string>): (r: string)
    ensures IsPrefix(AssistantPromptHead, r)
    ensures context.Some? && context.value != "" ==> r[|AssistantPromptHead|..] == context.value
    ensures context.None? || context.value == "" ==> r[|AssistantPromptHead|..] == NoContextText
  {
    AssistantPromptHead + TextOr(context, NoContextText)
  }

  /** The request `getAiDeveloperAssistantResponse` sends: the query goes untouched as the content. */
  function AssistantRequest(query: string, context: Option<string>): (r: Request)
    ensures r.contents == query
    ensures r.systemInstruction == AssistantSystemPrompt(context)
  {
    Request(AssistantSystemPrompt(context), query)
  }

  /** `getAiDeveloperAssistantResponse`: the reply text, an apology when it is empty or absent, a notice when the call fails. */
  function AssistantResponse(outcome: RemoteOutcome): (r: string)
    ensures outcome.Ok? ==> r == TextOr(outcome.text, AssistantEmptyText)
    ensures outcome.Thrown? ==> r == AssistantUnavailableText
  {
    match outcome
    case Ok(text) => TextOr(text, AssistantEmptyText)
    case Thrown => AssistantUnavailableText
  }

  /** The assistant never answers with an empty reply, whatever the service does. */
  lemma AssistantResponseNonEmpty(outcome: RemoteOutcome)
    ensures AssistantResponse(outcome) != ""
  {
  }
}
