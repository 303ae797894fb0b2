/**
 * Clients of the application state: the notebook's concrete scenarios,
 * driven through the handlers and proved from their contracts alone.
 */
module Scenarios {
  import opened Wrappers
  import opened Types
  import opened Text
  import opened CellStore
  import opened GeminiService
  import opened ExperimentDeriver
  import opened ExecutionDispatch
  import opened Studio

  /**
   * Deleting the device-probe cell while its execution is out, then letting
   * the execution complete: the cell is back, holding the result, and no
   * longer marked executing.
   */
  method DeleteDuringExecution(now: int, outcome: RemoteOutcome, idClock: nat, stampClock: int)
    returns (before: seq<Cell>, after: seq<Cell>)
    ensures !HasId(before, "2")
    ensures after == [InitialCells()[0], InitialCells()[1].(output := Some(SimulateCellExecution(DeviceProbeCode, Code, outcome)), isExecuting := false)]
  {
    var app := new App(now);
    var pending := app.ExecuteStart("2");
    assert InitialCells()[1].id == "2";
    assert pending.Some?;
    assert pending.value.cell == InitialCells()[1] by {
      FindIsFirst(InitialCells(), "2", 1);
    }
    app.DeleteCell("2");
    before := app.cells;
    DeleteCellMembers(MarkExecuting(InitialCells(), "2"), "2");
    app.ExecuteComplete(pending.value, outcome, idClock, stampClock);
    after := app.cells;
    FinishSpec(InitialCells(), "2", SimulateCellExecution(DeviceProbeCode, Code, outcome), 0);
    FinishSpec(InitialCells(), "2", SimulateCellExecution(DeviceProbeCode, Code, outcome), 1);
  }

  /**
   * Running the welcome note: a markdown cell gets the empty output without
   * any request, and since its text mentions training a session record is
   * still put in front of the experiments.
   */
  method ExecuteWelcomeNote(now: int, outcome: RemoteOutcome, idClock: nat, stampClock: int)
    returns (request: Option<Request>, welcome: Cell, experiments: seq<Experiment>)
    ensures request.None?
    ensures welcome.output == Some("") && !welcome.isExecuting
    ensures |experiments| == 3 && experiments[0] == NewExperiment(idClock, stampClock)
    ensures experiments[1..] == InitialExperiments(now)
  {
    var app := new App(now);
    var pending := app.ExecuteStart("1");
    assert InitialCells()[0].id == "1";
    assert pending.Some? && pending.value.cell == InitialCells()[0];
    request := RequestOf(pending);
    WelcomeMentionsTraining();
    app.ExecuteComplete(pending.value, outcome, idClock, stampClock);
    FinishSpec(InitialCells(), "1", "", 0);
    welcome := app.cells[0];
    experiments := app.experiments;
  }

  /** The welcome note's "training" contains the keyword. */
  lemma WelcomeMentionsTraining()
    ensures MentionsTraining(WelcomeText)
  {
    var before := "# Welcome to Aether Studio\n\nInitialize your ";
    var after := "ing environment below.";
    assert WelcomeText == before + Keyword + after;
    assert Contains(Keyword, Keyword);
    LowerIdempotent(Keyword);
    assert Lower(Keyword) == Keyword by {
      forall i | 0 <= i < |Keyword| ensures Lower(Keyword)[i] == Keyword[i] {
      }
    }
    MentionsTrainingAnywhere(before, Keyword, after);
  }

  /**
   * Asking a question: exactly one user message holding the raw input, the
   * input cleared, the query and context sent, then exactly one reply.
   */
  method AskOnce(now: int, input: string, outcome: RemoteOutcome)
    returns (request: Option<Request>, chat: seq<ChatMessage>, inputAfter: string)
    requires Trim(input) != ""
    ensures request == Some(AssistantRequest(input, Some(AssistantContext(Notebook, 2))))
    ensures chat == [ChatMessage(User, input), ChatMessage(Ai, AssistantResponse(outcome))]
    ensures inputAfter == ""
  {
    var app := new App(now);
    app.SetAiInput(input);
    var pending := app.AskStart();
    request := Some(AssistantRequest(pending.value.query, Some(pending.value.context)));
    inputAfter := app.aiInput;
    app.AskComplete(pending.value, outcome);
    chat := app.assistantChat;
  }

  /** Asking with blank input leaves the transcript and the input as they were and sends nothing. */
  method AskBlank(now: int, input: string) returns (sent: bool, chat: seq<ChatMessage>, inputAfter: string)
    requires AllSpace(input)
    ensures !sent && chat == [] && inputAfter == input
  {
    var app := new App(now);
    app.SetAiInput(input);
    TrimEmptyIffAllSpace(input);
    var pending := app.AskStart();
    sent := pending.Some?;
    chat := app.assistantChat;
    inputAfter := app.aiInput;
  }
}
