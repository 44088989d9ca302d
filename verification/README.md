# Extraction session store of the PDF results panel

This project models the logic inside `PDFResults` (components/pdf-results.tsx): the store that
holds an ordered list of extraction jobs for one uploaded PDF plus the id of the active tab,
and the transitions that change them. A user submits a job with the form's current settings
(tool, process-output, tables, text). The store admits at most `MAX_EXTRACTIONS` (5) jobs.
Each job's request completes later, in any order, with a payload, an error, or an
`AbortError`. A user can delete a job at any time, which asks its request to abort. The
project also models the small classification in `FormattedResults` that decides how a
successful payload is shown.

Modules:

- `Wrappers`: `Option`.
- `AppTypes`: the tool names and the extraction payload of app.types.ts.
- `FormattedResults`: `hasText` / `hasTables` and the four views.
- `Sequences`: the subsequence relation and distinctness, with their lemmas.
- `Session`: the job and state datatypes and the pure transitions `Submit`, `Complete`,
  `Delete` and `Select`. Each is one atomic "replace the list" step, like the component's
  state updaters.
- `Lifecycle`: the store over time. A `World` adds what the surrounding code provides
  implicitly: the ids handed out so far, the requests still in flight with the settings they
  carry, and the ids whose controller was told to abort. Events may arrive in any
  interleaving, and the lemmas show that an invariant holds after every one of them.

The random id (`Math.random`) and the timestamp (`Date.now`) are parameters. A submission
requires an id that is not currently held. At the event level it requires an id never handed
out before. Calling `abort()` is not performed: `Delete` reports it as the flag
`abortRequested`.

In three places the component behaves differently from what a reader might assume; the model follows the code:

- Deleting the last job leaves the active tab naming the deleted id. It is not cleared to
  empty. The model's invariant is therefore "while any job exists, the active tab names one
  of them".
- A completed job keeps its abort controller, because the spread `{ ...e, status, ... }`
  copies it. It is not cleared on completion.
- services/extraction-service.ts never passes the abort signal on to `fetch`. A deleted
  job's request can therefore still resolve or fail normally. The model allows any outcome
  for a deleted job's request, and every such outcome is a no-op because the id is no longer
  in the list.

## Model

| member | source | states |
|---|---|---|
| FormattedResults.Classify | components/pdf-results.tsx:43-52 | Text is shown exactly when `text` is present and non-empty. Tables are shown exactly when `tables` is present with a non-null first record that has a key. Tabs appear only when both are shown, and "No content" only when neither is. |
| FormattedResults.EmptyContainersShowNothing | components/pdf-results.tsx:44-48 | When the paragraph list is absent or empty, and the tables array is absent, empty, or starts with a null or keyless record, the view is "No content". |
| FormattedResults.OnlyFirstRecordCounts | components/pdf-results.tsx:45 | Only the first element of the tables array affects the view. |
| Session.Submit | components/pdf-results.tsx:178-201 | At or above the cap of 5, state and active tab are unchanged. Below it, exactly one job is appended after the untouched earlier jobs. That job is pending, has an abort controller, has no payload or error, and carries the form's settings as its config and tool. The new id goes last in the id order and becomes the active tab. |
| Session.MarkSuccess | components/pdf-results.tsx:214 | Jobs with the id become `success` with the payload. All other jobs are unchanged, and the id, tool, timestamp, controller and config of every job are preserved. |
| Session.MarkError | components/pdf-results.tsx:220 | Jobs with the id become `error` with the message. All other jobs are unchanged, and the untouched fields are preserved. |
| Session.Complete | components/pdf-results.tsx:203-221 | A resolution marks every held job with the id `success` with the payload and keeps its `error`. A rejection not named `AbortError` marks it `error` with the message and keeps its `data`. A completion keeps the ids in their order and the active tab. An `AbortError` changes nothing. A completion for an id that is no longer held changes nothing. Jobs with other ids are unchanged. |
| Session.Find | components/pdf-results.tsx:226 | Returns nothing exactly when no job has the id. Otherwise it returns the first job with the id. |
| Session.Without | components/pdf-results.tsx:233 | Exactly the jobs without the id remain, each as many times as before, as a subsequence of the original list. An absent id leaves the list unchanged. |
| Session.Delete | components/pdf-results.tsx:224-240 | Abort is requested exactly when the found job is pending and has a controller. Every job with the id is removed and the rest keep their multiplicity and relative order. If the deleted job was active and jobs remain, the first remaining job becomes active. Otherwise the active tab is untouched, even when the list becomes empty. An absent id leaves the list unchanged and requests no abort. |
| Session.Select | components/pdf-results.tsx:387-388 | The clicked tab becomes active and the jobs are unchanged. |
| Session.CompletionsCommute | components/pdf-results.tsx:214-220 | Completions of two different jobs give the same state in either order. |
| Session.CompletionOrderKeepsListOrder | components/pdf-results.tsx:200-220 | Submitting A then B and completing B before A leaves the ids listed as A, B. |
| Session.LateCompletionIsNoOp | components/pdf-results.tsx:214-233 | A completion that arrives after its job was deleted leaves the post-deletion state unchanged. |
| Session.DeleteAbortsPendingJob | components/pdf-results.tsx:226-231 | With unique ids, abort is requested exactly when some job with the id is pending and has a controller. |
| Session.DeleteActiveSelectsFirstSurvivor | components/pdf-results.tsx:234-237 | Deleting the active job selects the first job in the original order whose id differs. |
| Lifecycle.StepKeepsInv | components/pdf-results.tsx:178-240 | Every possible submission, completion, deletion or tab click preserves the session invariant. |
| Lifecycle.RunKeepsInv | components/pdf-results.tsx:178-240 | Any sequence of possible events preserves the session invariant. |
| Lifecycle.Reachable | components/pdf-results.tsx:18-240 | From the empty session, under any event sequence, the session has these properties. It holds at most 5 jobs. Its ids are unique and appear in submission order. Each job's payload and error match its status. While any job exists, the active tab names one of them. |
| Lifecycle.DeletedStaysDeleted | components/pdf-results.tsx:183-233 | An issued id that has left the list never returns, whatever events follow. This includes the job's own late completion. |

## Left out

- Rendering: all JSX, the dialog and display flags `infoDialogOpen`, `selectedExtraction`, `showRaw` and `isExpanded`, and `handleShowInfo`. These are presentation only.
- The request itself (services/extraction-service.ts, app.config.ts): `fetch`, `FormData`, the endpoint URL and JSON decoding. A request is modelled only through its outcome: a payload, or a rejection with a name and a message.
- React scheduling and stale closures. The cap check in `handleSubmit` reads the rendered `extractions`, and `handleDelete` reads the rendered `activeTab`. The model applies every handler atomically to the current state.
- Real cancellation. `AbortController` is recorded as a flag. A rejection named `AbortError` is assumed to arise only after an abort was requested.
- Id generation. `Math.random().toString(36).substring(7)` can repeat, and it can even give the empty string. The model takes the id as a parameter and requires it to be fresh.
- components/upload-pdf.tsx and app/page.tsx: wiring around the file picker, with no session logic.
