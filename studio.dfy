/**
 * The notebook application state and its handlers. Each handler replaces a
 * whole field, as the React setters do. The two handlers that wait on the
 * remote service are split at their `await`: a start method and a
 * completion method, between which any other handler may run.
 */
module Studio {
  import opened Wrappers
  import opened Types
  import opened Text
  import opened CellStore
  import opened GeminiService
  import opened ExperimentDeriver
  import opened ExecutionDispatch

  /** What `handleAiAsk` holds across its `await`: the query sent and the context sent with it. */
  datatype PendingAsk = PendingAsk(query: string, context: string)

  const ContextTabLabel: string := "Active Tab: "
  const ContextCountLabel: string := ", Cell count: "

  const WelcomeText: string := "# Welcome to Aether Studio\n\nInitialize your training environment below."
  const DeviceProbeCode: string :=
    "import torch\nimport numpy as np\n\nprint(f\"CUDA Available: {torch.cuda.is_available()}\")\n"
    + "print(f\"Device Name: {torch.cuda.get_device_name(0) if torch.cuda.is_available() else \"CPU\"}\")"

  /** The notebook as the page opens: a welcome note and a device probe. */
  function InitialCells(): seq<Cell>
  {
    [Cell("1", Markdown, WelcomeText, None, false), Cell("2", Code, DeviceProbeCode, None, false)]
  }

  /** The two sample experiments shown at start, stamped one hour apart. */
  function InitialExperiments(now: int): seq<Experiment>
  {
    [ Experiment("exp-1", "Baseline ResNet", Completed, Metrics(0.92, 0.21, 50), now - 3600000),
      Experiment("exp-2", "Llama Finetune - V1", Running, Metrics(0.78, 0.45, 12), now) ]
  }

  /**
   * The context string sent with an assistant query: it names the active tab
   * and carries the cell count in decimal, which reads back exactly.
   */
  function AssistantContext(tab: AppTab, cellCount: nat): (r: string)
    ensures IsPrefix(ContextTabLabel + TabName(tab) + ContextCountLabel, r)
    ensures r[|ContextTabLabel + TabName(tab) + ContextCountLabel|..] == NatToString(cellCount)
    ensures forall i :: |ContextTabLabel + TabName(tab) + ContextCountLabel| <= i < |r| ==> IsDigit(r[i])
    ensures ParseDigits(r[|ContextTabLabel + TabName(tab) + ContextCountLabel|..]) == cellCount
  {
    var head := ContextTabLabel + TabName(tab) + ContextCountLabel;
    ParseNatToString(cellCount);
    assert (head + NatToString(cellCount))[|head|..] == NatToString(cellCount);
    head + NatToString(cellCount)
  }

  class App {
    var activeTab: AppTab
    var cells: seq<Cell>
    var experiments: seq<Experiment>
    var assistantChat: seq<ChatMessage>
    var aiInput: string

    /** The state the page starts in; `now` is the clock reading the sample experiments are stamped with. */
    constructor (now: int)
      ensures activeTab == Notebook && cells == InitialCells() && experiments == InitialExperiments(now)
      ensures assistantChat == [] && aiInput == ""
    {
      activeTab := Notebook;
      cells := InitialCells();
      experiments := InitialExperiments(now);
      assistantChat := [];
      aiInput := "";
    }

    /** A sidebar click. */
    method SelectTab(tab: AppTab)
      modifies this
      ensures activeTab == tab
      ensures cells == old(cells) && experiments == old(experiments)
      ensures assistantChat == old(assistantChat) && aiInput == old(aiInput)
    {
      activeTab := tab;
    }

    /** Typing in the assistant's input box. */
    method SetAiInput(text: string)
      modifies this
      ensures aiInput == text
      ensures activeTab == old(activeTab) && cells == old(cells) && experiments == old(experiments)
      ensures assistantChat == old(assistantChat)
    {
      aiInput := text;
    }

    /** `addCell(type)`; `id` is what the random id generator produced, not necessarily fresh. */
    method AddCell(kind: CellType, id: string)
      modifies this
      ensures cells == CellStore.AddCell(old(cells), id, kind)
      ensures activeTab == old(activeTab) && experiments == old(experiments)
      ensures assistantChat == old(assistantChat) && aiInput == old(aiInput)
    {
      cells := CellStore.AddCell(cells, id, kind);
    }

    /** `updateCell(id, content)`. */
    method UpdateCell(id: string, content: string)
      modifies this
      ensures cells == CellStore.UpdateCell(old(cells), id, content)
      ensures activeTab == old(activeTab) && experiments == old(experiments)
      ensures assistantChat == old(assistantChat) && aiInput == old(aiInput)
    {
      cells := CellStore.UpdateCell(cells, id, content);
    }

    /** `deleteCell(id)`. */
    method DeleteCell(id: string)
      modifies this
      ensures cells == CellStore.DeleteCell(old(cells), id)
      ensures activeTab == old(activeTab) && experiments == old(experiments)
      ensures assistantChat == old(assistantChat) && aiInput == old(aiInput)
    {
      cells := CellStore.DeleteCell(cells, id);
    }

    /**
     * `executeCell(id)` up to its `await`. An unknown id changes nothing and
     * leads to no request. Otherwise the first cell with the id is captured
     * together with the whole current sequence, and every cell with the id is
     * marked executing; markdown cells are no exception.
     */
    method ExecuteStart(id: string) returns (pending: Option<PendingExecution>)
      modifies this
      ensures !HasId(old(cells), id) ==> pending.None? && cells == old(cells)
      ensures HasId(old(cells), id) ==>
        pending == Some(PendingExecution(id, Find(old(cells), id).value, old(cells)))
        && cells == MarkExecuting(old(cells), id)
      ensures activeTab == old(activeTab) && experiments == old(experiments)
      ensures assistantChat == old(assistantChat) && aiInput == old(aiInput)
    {
      var found := Find(cells, id);
      if found.None? {
        return None;
      }
      pending := Some(PendingExecution(id, found.value, cells));
      cells := MarkExecuting(cells, id);
    }

    /**
     * `executeCell(id)` after its `await`, given what the service call
     * produced. The cell sequence becomes the start-time sequence with the
     * result written in, discarding whatever changed meanwhile; the
     * experiment list is the live one, with a record put in front when the
     * captured content mentions training.
     */
    method ExecuteComplete(pending: PendingExecution, outcome: RemoteOutcome, idClock: nat, stampClock: int)
      modifies this
      ensures cells == Finish(pending.snapshot, pending.id,
        SimulateCellExecution(pending.cell.content, pending.cell.kind, outcome))
      ensures experiments == Derive(pending.cell.content, old(experiments), idClock, stampClock)
      ensures activeTab == old(activeTab)
      ensures assistantChat == old(assistantChat) && aiInput == old(aiInput)
    {
      var output := SimulateCellExecution(pending.cell.content, pending.cell.kind, outcome);
      cells := Finish(pending.snapshot, pending.id, output);
      if MentionsTraining(pending.cell.content) {
        experiments := [NewExperiment(idClock, stampClock)] + experiments;
      }
    }

    /**
     * `handleAiAsk` up to its `await`. Input that trims to nothing changes
     * nothing and leads to no request. Otherwise the raw input is appended as
     * a user message, the input box is cleared, and the query and the context
     * built from the current tab and cell count are handed on.
     */
    method AskStart() returns (pending: Option<PendingAsk>)
      modifies this
      ensures Trim(old(aiInput)) == "" ==>
        pending.None? && assistantChat == old(assistantChat) && aiInput == old(aiInput)
      ensures Trim(old(aiInput)) != "" ==>
        pending == Some(PendingAsk(old(aiInput), AssistantContext(activeTab, |cells|)))
        && assistantChat == old(assistantChat) + [ChatMessage(User, old(aiInput))]
        && aiInput == ""
      ensures activeTab == old(activeTab) && cells == old(cells) && experiments == old(experiments)
    {
      if Trim(aiInput) == "" {
        return None;
      }
      var query := aiInput;
      assistantChat := assistantChat + [ChatMessage(User, query)];
      aiInput := "";
      pending := Some(PendingAsk(query, AssistantContext(activeTab, |cells|)));
    }

    /**
     * `handleAiAsk` after its `await`: `outcome` is what the service produced
     * for the request made from `pending`; the reply is appended to the live
     * transcript.
     */
    method AskComplete(pending: PendingAsk, outcome: RemoteOutcome)
      modifies this
      ensures assistantChat == old(assistantChat) + [ChatMessage(Ai, AssistantResponse(outcome))]
      ensures activeTab == old(activeTab) && cells == old(cells) && experiments == old(experiments)
      ensures aiInput == old(aiInput)
    {
      assistantChat := assistantChat + [ChatMessage(Ai, AssistantResponse(outcome))];
    }
  }
}
