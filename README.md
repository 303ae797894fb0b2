# Aether Studio notebook core, modelled in Dafny

This project models the state machine behind the Aether Studio research notebook. The notebook holds an ordered list of cells (code or markdown). It can run a cell through a remote completion service that pretends to be a Python kernel. It derives "training session" experiment records from the content it ran. It also keeps a chat transcript with a developer assistant backed by the same service.

What is modelled:

- **Record shapes** (`types.dfy`): cells, experiments, metrics, chat messages and tabs. A cell's optional `output` is an explicit `Option`. Its `isExecuting` is a `bool`; an absent value reads as false.
- **Cell store** (`cell_store.dfy`): the three whole-sequence transformations the handlers are built from. Append (`addCell`), `map` by id (`updateCell`, and both halves of `executeCell`), and `filter` by id (`deleteCell`). `cells.find` is modelled too.
- **Execution dispatch** (`execution_dispatch.dfy`, `studio.dfy`): `executeCell` is split at its `await`.
  - The start half looks the cell up (an unknown id does nothing). It marks every cell with that id as executing and keeps the whole sequence it saw.
  - The completion half writes the output and `isExecuting = false` into that *start-time* sequence, not into the live one. Both `setCells` calls map over the `cells` value the handler was created with.
  - The model reproduces the consequences. Edits, additions and deletions made while the request was out are lost. A deleted cell comes back holding the result.
  - Take two overlapping executions, of cell `a` started first and cell `b` started second. If `b` completes last, `a` is left marked executing with its old output. If `a` completes last, `b` is back to its start-time flag and output, and `b`'s result is gone.
- **Experiment derivation** (`experiment_deriver.dfy`): after every completion, the captured content is lower-cased and searched for `train`. On a match, a `Manual Training Session` record is put in front of the live experiment list. It has status `running`, accuracy 0, loss 1 and epoch 0. Markdown cells go through this too.
- **Assistant session** (`studio.dfy`): `handleAiAsk` is split at its `await`. Input that trims to nothing does nothing. Otherwise the raw input is appended as a user message, the input is cleared, and the query is sent with the context `Active Tab: <tab>, Cell count: <n>`. On completion the reply is appended.
- **Service decisions** (`gemini_service.dfy`): the remote call is a parameter, `Ok(text)` or `Thrown`. A markdown cell gets `""` and no request is made. Otherwise the request content is a fixed preamble followed by the code. An empty or absent reply falls back to a fixed note, and a thrown error to a fixed error line. The assistant has its own two fallback strings, and its system prompt ends with the context or `None`.
- **Text** (`text.dfy`): ASCII `toLowerCase`, `includes`, `trim`, and decimal rendering of a non-negative integer.
- **Scenarios** (`scenarios.dfy`): client methods that drive the `App` class through its handlers. Their results are proved from the handlers' contracts, together with the lemmas `FindIsFirst`, `DeleteCellMembers`, `FinishSpec`, `WelcomeMentionsTraining` and `TrimEmptyIffAllSpace`, and the definitions of `InitialCells` and `Find`.

Two facts about the code that the model keeps:

- `executeCell` marks a markdown cell executing like any other cell. It awaits the service (which returns `""`), clears the mark and runs the keyword check.
- Completion has no guard for a cell deleted while its request was out, and the model has none.

## Model

| member | source | states |
|---|---|---|
| `Text.Lower` | App.tsx:126 | lower-casing keeps the length, turns each upper-case letter into its lower-case counterpart, and changes no other character |
| `Text.LowerIdempotent` | App.tsx:126 | lower-casing twice is the same as lower-casing once |
| `Text.LowerAppend` | App.tsx:126 | lower-casing distributes over concatenation |
| `Text.ContainsIffOccurs` | App.tsx:126 | the suffix search used for `includes` holds exactly when the keyword occurs at some index |
| `Text.ContainsExtend` | App.tsx:126 | an occurrence survives any text put before or after the searched string |
| `Text.TrimEmptyIffAllSpace` | App.tsx:145 | the input trims to empty exactly when every character is white space; a non-empty trimmed string neither starts nor ends with white space |
| `Text.NatToString` | App.tsx:150 | the decimal rendering is non-empty, all digits, and has no leading zero unless the number is 0 |
| `Text.ParseNatToString` | App.tsx:150 | reading the rendered digits back gives the original number |
| `Text.NatToStringInjective` | App.tsx:129 | distinct numbers render to distinct strings |
| `GeminiService.TextOr` | services/geminiService.ts:25 | `text || fallback`: a present non-empty text wins; an absent or empty text gives the fallback |
| `GeminiService.ExecutionRequest` | services/geminiService.ts:6-23 | no request exactly for markdown; otherwise the fixed system instruction, and content that is the fixed preamble followed by the code verbatim |
| `GeminiService.SimulateCellExecution` | services/geminiService.ts:6-30 | markdown gives `""`; a successful reply gives its text, or the no-output note when the text is empty or absent; a thrown error gives the connectivity error line |
| `GeminiService.ExecutionOutputEmptyIffMarkdown` | services/geminiService.ts:7-28 | the execution output is empty exactly when the cell is markdown |
| `GeminiService.NoRequestIffOutcomeIrrelevant` | services/geminiService.ts:7-28 | no request is made exactly when the output is the same for every remote outcome |
| `GeminiService.ExecutionFailureDistinguishable` | services/geminiService.ts:25-28 | a non-empty reply other than the error line is passed through and differs from the failure output |
| `GeminiService.AssistantSystemPrompt` | services/geminiService.ts:33-35 | the system prompt is the fixed head followed by the context, or `None` when the context is absent or empty |
| `GeminiService.AssistantRequest` | services/geminiService.ts:37-44 | the query is sent unchanged as the content, with the context-bearing system prompt |
| `GeminiService.AssistantResponse` | services/geminiService.ts:46-50 | the reply text, the apology when it is empty or absent, the unavailable notice when the call throws |
| `GeminiService.AssistantResponseNonEmpty` | services/geminiService.ts:46-50 | the assistant's answer is never empty, whatever the remote side does |
| `CellStore.AddCell` | App.tsx:101-109 | one more cell, last, with the given id and type, empty content, no output, not executing; every earlier cell unchanged and in place |
| `CellStore.MapById` | App.tsx:112 | mapping by id keeps the length |
| `CellStore.MapByIdAt` | App.tsx:112 | at each position the transform is applied exactly when the id matches; other cells are untouched |
| `CellStore.MapByIdAbsent` | App.tsx:112 | mapping by an id no cell carries is the identity |
| `CellStore.UpdateCell` | App.tsx:111-113 | updating keeps the length |
| `CellStore.UpdateCellSpec` | App.tsx:111-113 | ids, types, outputs and busy flags stay in place; content becomes the new text exactly on cells with the id |
| `CellStore.UpdateCellAbsent` | App.tsx:111-113 | updating an unknown id changes nothing |
| `CellStore.UpdateCellIdempotent` | App.tsx:111-113 | the same update applied twice equals applying it once |
| `CellStore.DeleteCell` | App.tsx:140-142 | deleting never lengthens the sequence |
| `CellStore.DeleteCellCounts` | App.tsx:140-142 | cells with the id are all gone; every other cell remains exactly as many times as before |
| `CellStore.DeleteCellMembers` | App.tsx:140-142 | no cell with the deleted id remains; a cell remains exactly when it was there and has another id |
| `CellStore.DeleteCellKeepsOrder` | App.tsx:140-142 | the remaining cells keep their relative order |
| `CellStore.DeleteCellAbsent` | App.tsx:140-142 | deleting an unknown id changes nothing |
| `CellStore.DeleteCellAppend` | App.tsx:141 | filtering a concatenation filters each part |
| `CellStore.DeleteAfterAdd` | App.tsx:101-142 | adding a cell whose id no cell carries, then deleting that id, restores the prior sequence |
| `CellStore.Find` | App.tsx:116 | a cell is found exactly when some cell has the id; the found cell has the id and is in the sequence |
| `CellStore.FindIsFirst` | App.tsx:116 | the found cell is the first with the id, even when ids collide |
| `ExperimentDeriver.NewExperiment` | App.tsx:128-134 | name `Manual Training Session`, status running, accuracy 0, loss 1, epoch 0, the stamp clock as timestamp, and an id of `exp-` followed by the canonical decimal rendering of the id clock, whose digits read back as that clock |
| `ExperimentDeriver.Derive` | App.tsx:126-137 | when the content mentions training, the template record for the two clock readings goes in front and the rest is the old list; otherwise the list is unchanged |
| `ExperimentDeriver.MentionsTrainingIgnoresCase` | App.tsx:126 | the keyword test holds exactly when `train` occurs at some index with each letter in lower case or in capitals |
| `ExperimentDeriver.MentionsTrainingAnywhere` | App.tsx:126 | content mentioning training still does with any text around it |
| `ExperimentDeriver.MentionsTrainingUpperCase` | App.tsx:126 | `model.TRAIN()` qualifies |
| `ExperimentDeriver.PlainPrintIsNotTraining` | App.tsx:126 | `print('hi')` does not qualify |
| `ExperimentDeriver.DeriveRepeats` | App.tsx:127-136 | two qualifying executions add two records, newest first, with no de-duplication |
| `ExperimentDeriver.ExperimentIdsCollideIffSameClock` | App.tsx:129 | two derived records share an id exactly when their id clock readings are equal |
| `ExecutionDispatch.MarkExecuting` | App.tsx:119 | marking keeps the length |
| `ExecutionDispatch.MarkExecutingSpec` | App.tsx:119 | cells with the id become busy; nothing else about them changes, and other cells are untouched |
| `ExecutionDispatch.Finish` | App.tsx:123 | completion keeps the start-time length |
| `ExecutionDispatch.FinishSpec` | App.tsx:123 | cells with the id get the output and are no longer busy; every other cell is exactly as it was at the start |
| `ExecutionDispatch.RequestOf` | App.tsx:116-121 | no request for an unknown id; for a found cell, a request exactly when it is not markdown |
| `ExecutionDispatch.DeletedCellReappears` | App.tsx:119-142 | a cell deleted while its request is out is back after completion, holding the result |
| `ExecutionDispatch.InterimEditIsLost` | App.tsx:111-123 | an edit made while a request is out is replaced by the start-time content on completion |
| `ExecutionDispatch.InterimAddIsLost` | App.tsx:101-123 | a cell added while a request is out is gone after completion |
| `ExecutionDispatch.OverlappingExecutionsLeaveStaleFlag` | App.tsx:119-123 | with overlapping executions of `a` then `b`, if `b` completes last, `a` is left marked executing and without its result |
| `ExecutionDispatch.OverlappingExecutionsDropLaterResult` | App.tsx:119-123 | with overlapping executions of `a` then `b`, if `a` completes last, `b` is exactly as it was before either started, so `b`'s result is gone |
| `Studio.AssistantContext` | App.tsx:150 | the context names the active tab and ends with the canonical decimal rendering of the cell count, whose digits read back exactly |
| `Studio.App.constructor` | App.tsx:80-91 | the page opens on the notebook tab, with the welcome and device-probe cells, the two sample experiments, an empty transcript and empty input |
| `Studio.App.SelectTab` | App.tsx:173 | only the active tab changes |
| `Studio.App.SetAiInput` | App.tsx:470 | only the assistant input changes |
| `Studio.App.AddCell` | App.tsx:101-109 | the cells become the appended sequence; nothing else changes |
| `Studio.App.UpdateCell` | App.tsx:111-113 | the cells become the updated sequence; nothing else changes |
| `Studio.App.DeleteCell` | App.tsx:140-142 | the cells become the filtered sequence; nothing else changes |
| `Studio.App.ExecuteStart` | App.tsx:115-121 | an unknown id changes nothing and yields no pending execution; otherwise the first matching cell and the whole current sequence are captured and the cell is marked executing |
| `Studio.App.ExecuteComplete` | App.tsx:121-137 | the cells become the start-time sequence with the service output written in; the live experiment list gains a template record exactly when the captured content mentions training |
| `Studio.App.AskStart` | App.tsx:144-151 | blank input changes nothing and sends nothing; otherwise one user message with the raw input is appended, the input is cleared, and the query goes out with the current context |
| `Studio.App.AskComplete` | App.tsx:151-153 | completing a started ask appends exactly one assistant message holding the reply to the live transcript |
| `Scenarios.DeleteDuringExecution` | App.tsx:115-142 | deleting the device-probe cell mid-execution, then completing, brings the cell back with the output and not executing |
| `Scenarios.ExecuteWelcomeNote` | App.tsx:115-137 | executing the markdown welcome note sends no request, gives output `""`, clears the flag, and adds a training session record because the note says "training" |
| `Scenarios.WelcomeMentionsTraining` | App.tsx:82 | the welcome note's text contains the keyword |
| `Scenarios.AskOnce` | App.tsx:144-154 | a non-blank question gives one user message with the raw input, then one reply; the input is cleared and the request carries the query and the notebook context |
| `Scenarios.AskBlank` | App.tsx:144-145 | a blank question sends nothing and leaves the transcript and the input unchanged |

## Left out

- Rendering is not modelled, because it has no state. This covers `SidebarItem`, the `CodeCell` markup, and the models, datasets, experiments and API tabs. It also covers the table formatting with `toFixed` and `toLocaleDateString`.
- The disabled run button on a busy cell is a display affordance, not a check inside `executeCell`. The model lets a busy cell be executed again.
- The auto-save interval only logs a line, so it is left out.
- The catalog data (`MOCK_MODELS`, `MOCK_DATASETS`), the icons and the assistant panel toggle are not part of this model. `constants.ts` is not part of this model.
- Cell ids come from `Math.random` and are a parameter of `AddCell`. Nothing guarantees they are fresh. Only `DeleteAfterAdd` and `InterimAddIsLost` assume it.
- Experiment ids and timestamps come from `Date.now`. Each is a clock-reading parameter; the id and the timestamp are two separate readings.
- Studio.App.constructor: the two sample experiments are stamped from one clock reading, where the page reads the clock twice.
- The service client, the API key, the model names, the temperature, the transport and the `console.error` logging are not modelled. The remote call is the parameter `RemoteOutcome`: a reply whose text may be absent, or a thrown error.
- Real asynchrony is not modelled. Each `await` is the boundary between a start method and a completion method, and any handler may run between them. Each handler is assumed to see the state left by the previous one; a handler created by an older render would map over an even older sequence.
- `toLowerCase` maps only `A`-`Z`, and `trim` removes only the ASCII white space characters (space, tab, line feed, vertical tab, form feed, carriage return). Non-ASCII case mapping and non-ASCII white space are not modelled.
- Metric values are exact reals, not floating-point numbers. Only the constants 0 and 1 are produced by the derivation.
- The service takes the cell type as a string. The model takes the two-valued cell type, the only values the notebook passes.
