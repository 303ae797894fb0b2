/** The record shapes of the notebook: cells, experiments, chat messages and tabs. */
module Types {
  import opened Wrappers

  datatype CellType = Code | Markdown

  /**
   * A notebook cell. The optional `output` is explicit; an absent
   * `isExecuting` reads as false, so it is a plain bool here.
   */
  datatype Cell = Cell(id: string, kind: CellType, content: string, output: Option<string>, isExecuting: bool)

  datatype ExperimentStatus = Running | Completed | Failed

  /** Accuracy and loss are JavaScript numbers; they are kept as exact reals. */
  datatype Metrics = Metrics(accuracy: real, loss: real, epoch: int)

  /** `timestamp` is a millisecond clock reading. */
  datatype Experiment = Experiment(id: string, name: string, status: ExperimentStatus, metrics: Metrics, timestamp: int)

  datatype Role = User | Ai

  datatype ChatMessage = ChatMessage(role: Role, text: string)

  datatype AppTab = Notebook | Models | Datasets | Experiments | Api

  /** The string value of each tab, as a template literal prints it. */
  function TabName(tab: AppTab): string
  {
    match tab
    case Notebook => "notebook"
    case Models => "models"
    case Datasets => "datasets"
    case Experiments => "experiments"
    case Api => "api"
  }
}
