/**
 * The two halves of `executeCell`. The start half marks the cell busy and
 * keeps the sequence it saw; the completion half writes the result into
 * that same start-time sequence, whatever happened to the live one while
 * the request was out.
 */
module ExecutionDispatch {
  import opened Wrappers
  import opened Types
  import opened CellStore
  import opened GeminiService

  /** What the start half hands to the completion half across the `await`. */
  datatype PendingExecution = PendingExecution(id: string, cell: Cell, snapshot: seq<Cell>)

  /** `{ ...c, isExecuting: true }`. */
  function SetBusy(): Cell -> Cell
  {
    (c: Cell) => c.(isExecuting := true)
  }

  /** `{ ...c, output, isExecuting: false }`. */
  function SetResult(output: string): Cell -> Cell
  {
    (c: Cell) => c.(output := Some(output), isExecuting := false)
  }

  /** The start half's `setCells`: every cell with the id becomes busy. */
  function MarkExecuting(cells: seq<Cell>, id: string): (r: seq<Cell>)
    ensures |r| == |cells|
  {
    MapById(cells, id, SetBusy())
  }

  /** The completion half's `setCells`, applied to the start-time sequence. */
  function Finish(snapshot: seq<Cell>, id: string, output: string): (r: seq<Cell>)
    ensures |r| == |snapshot|
  {
    MapById(snapshot, id, SetResult(output))
  }

  /** Marking sets the busy flag on the cells with the id and touches nothing else. */
  lemma MarkExecutingSpec(cells: seq<Cell>, id: string, i: int)
    requires 0 <= i < |cells|
    ensures MarkExecuting(cells, id)[i].isExecuting == (cells[i].id == id || cells[i].isExecuting)
    ensures MarkExecuting(cells, id)[i] == cells[i].(isExecuting := MarkExecuting(cells, id)[i].isExecuting)
    ensures cells[i].id != id ==> MarkExecuting(cells, id)[i] == cells[i]
  {
    MapByIdAt(cells, id, SetBusy(), i);
  }

  /**
   * Completion gives the cells with the id the result and clears their busy
   * flag; every other cell is exactly as it was at the start.
   */
  lemma FinishSpec(snapshot: seq<Cell>, id: string, output: string, i: int)
    requires 0 <= i < |snapshot|
    ensures snapshot[i].id == id ==> Finish(snapshot, id, output)[i] == snapshot[i].(output := Some(output), isExecuting := false)
    ensures snapshot[i].id != id ==> Finish(snapshot, id, output)[i] == snapshot[i]
  {
    MapByIdAt(snapshot, id, SetResult(output), i);
  }

  /** The request the start half causes: none for an unknown id or a markdown cell. */
  function RequestOf(pending: Option<PendingExecution>): (r: Option<Request>)
    ensures pending.None? ==> r.None?
    ensures pending.Some? ==> (r.None? <==> pending.value.cell.kind == Markdown)
  {
    match pending
    case None => None
    case Some(p) => ExecutionRequest(p.cell.content, p.cell.kind)
  }

  /**
   * A cell deleted while its request is out comes back on completion, with
   * the result in it.
   */
  lemma DeletedCellReappears(snapshot: seq<Cell>, id: string, output: string)
    requires HasId(snapshot, id)
    ensures !HasId(DeleteCell(MarkExecuting(snapshot, id), id), id)
    ensures HasId(Finish(snapshot, id, output), id)
    ensures exists c :: c in Finish(snapshot, id, output) && c.id == id && c.output == Some(output)
  {
    DeleteCellMembers(MarkExecuting(snapshot, id), id);
    var i :| 0 <= i < |snapshot| && snapshot[i].id == id;
    FinishSpec(snapshot, id, output, i);
    assert Finish(snapshot, id, output)[i] in Finish(snapshot, id, output);
  }

  /** An edit made while a request is out is undone by its completion, on any cell. */
  lemma InterimEditIsLost(snapshot: seq<Cell>, id: string, output: string, j: int, content: string)
    requires 0 <= j < |snapshot| && snapshot[j].content != content
    ensures UpdateCell(MarkExecuting(snapshot, id), snapshot[j].id, content)[j].content == content
    ensures Finish(snapshot, id, output)[j].content == snapshot[j].content != content
  {
    MarkExecutingSpec(snapshot, id, j);
    UpdateCellSpec(MarkExecuting(snapshot, id), snapshot[j].id, content, j);
    FinishSpec(snapshot, id, output, j);
  }

  /** A cell added while a request is out is gone after its completion. */
  lemma InterimAddIsLost(snapshot: seq<Cell>, id: string, output: string, newId: string, kind: CellType)
    requires !HasId(snapshot, newId)
    ensures HasId(AddCell(MarkExecuting(snapshot, id), newId, kind), newId)
    ensures !HasId(Finish(snapshot, id, output), newId)
  {
    var live := AddCell(MarkExecuting(snapshot, id), newId, kind);
    assert live[|snapshot|].id == newId;
    forall i | 0 <= i < |snapshot| ensures Finish(snapshot, id, output)[i].id != newId {
      FinishSpec(snapshot, id, output, i);
    }
  }

  /**
   * Two overlapping executions on cells `a` then `b`: when `a` completes last,
   * its start-time sequence predates `b`'s start, so `b` is back to its
   * start-time busy flag and output, and `b`'s result is gone.
   */
  lemma OverlappingExecutionsDropLaterResult(s0: seq<Cell>, a: string, b: string, outA: string, j: int)
    requires a != b && 0 <= j < |s0| && s0[j].id == b
    ensures Finish(s0, a, outA)[j] == s0[j]
  {
    FinishSpec(s0, a, outA, j);
  }

  /**
   * Two overlapping executions on cells `a` then `b`: when `b` completes last,
   * its start-time sequence still shows `a` busy and without `a`'s result, so
   * `a` is left marked executing with its old output.
   */
  lemma OverlappingExecutionsLeaveStaleFlag(s0: seq<Cell>, a: string, b: string, outA: string, outB: string, i: int)
    requires a != b && 0 <= i < |s0| && s0[i].id == a
    ensures Finish(s0, a, outA)[i].output == Some(outA) && !Finish(s0, a, outA)[i].isExecuting
    ensures Finish(MarkExecuting(s0, a), b, outB)[i].isExecuting
    ensures Finish(MarkExecuting(s0, a), b, outB)[i].output == s0[i].output
  {
    FinishSpec(s0, a, outA, i);
    MarkExecutingSpec(s0, a, i);
    FinishSpec(MarkExecuting(s0, a), b, outB, i);
  }
}
