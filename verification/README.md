# PDF merger bot: session and conversation model

A Dafny model of the per-user session state machine of a Telegram bot that
collects PDF files from a user, removes pages from the last one, merges them,
and sends the result back. The bot keeps, per user, a `UserSession` with the
list of temporary PDF files it owns, a conversation state (`idle`,
`waiting_pdf`, `has_pdfs`, `waiting_page_number`) and a scratch dictionary
that records the page count of the PDF awaiting a page removal. Sessions
live in a process-wide dictionary and are created on a user's first event.

The model:

- `TempFiles` — the temporary directory as a class holding the set of
  existing paths, with `exists`, `remove` (which fails on a missing file)
  and file creation. Paths keep the structure of the three names the bot
  builds (`pdf_<user>_<index>.pdf`, `modified_<user>_<index>.pdf`,
  `merged_<user>.pdf`), which are equal exactly when kind, user and index are.
- `Menu` — the callback tags and the main menu as a function of the PDF count.
- `PageInput` — the digit check, `int(...)` and the range check on the typed
  page number, with the page count defaulting to 0 when none is recorded.
- `Sessions` — `UserSession` (constructor, `add_pdf`, `clear`) as a class
  whose methods update its fields, its invariant `Valid()` (each list entry
  is named for its own position, so no file is listed twice and every file
  belongs to the session's user; `has_pdfs` and `waiting_page_number` imply a
  non-empty list; `waiting_page_number` implies a recorded page count), and
  the session store with get-or-create.
- `Handlers` — one method per command, document, callback action and text
  handler. Each keeps `Valid()`, touches no other user's files, and states
  the exact new list, state, scratch data, set of files and reply on every
  branch. Each also preserves "every listed file exists", with two
  qualifications: the merge used here is the corrected one, which spares
  its own output (see Findings), and `HandleText` excludes a second removal
  from the same PDF (below).
- `Bot` — dispatch of an event to the sender's session.
- `Findings` — the merge handler as written, and the event sequence under
  which it loses its own output.

The PDF library (page count, page removal, merge) and the chat transport
(download, send) are not modelled; each handler takes their outcomes as
parameters (`pageCount`, `removeOk`, `mergeOk`, `downloadOk`, `sendOk`), so
every property holds whatever the library and the transport do. Nothing is
said about the contents of any PDF.

`handle_document` accepts documents only in `idle` and `waiting_pdf`, and
the main menu always offers add_pdf.

Page removal always writes to `modified_<user>_<index>.pdf` for the last
index. When the last entry already carries that name (a second removal from
the same PDF), input and output coincide, and on a reported success the
handler deletes the file it has just recorded; `HandleText` states this
outcome as is, and its ownership guarantee excludes that case. The PDF
library normally refuses to save over the document it opened, so in practice
that removal reports failure instead; the model cannot see that.

## Model

| member | source | states |
|---|---|---|
| `Sessions.UserSession.constructor` | main.py:34-38 | a new session has no PDFs, empty scratch data, state idle, and satisfies the session invariant |
| `Sessions.UserSession.AddPdf` | main.py:40-41 | the path is appended at the end of the list; state and scratch data unchanged |
| `Sessions.UserSession.Clear` | main.py:43-53 | every listed file is gone afterwards and no other file is touched (missing files are skipped without failure); list and scratch data empty, state idle |
| `Sessions.SessionStore.GetSession` | main.py:56-60 | get-or-create: a known id returns the session already filed and leaves the map unchanged; an unknown id adds exactly that key with a fresh empty session |
| `Sessions.WellNamedDistinct` | main.py:211-214 | with every entry named for its own position, all entries belong to the user and no file is listed twice |
| `Menu.MainMenu` | main.py:62-79 | starts with add_pdf, ends with cancel; count 1 inserts exactly remove_page, finish; count > 1 exactly remove_page, merge_pdfs, reset; count 0 nothing; no button twice |
| `Menu.MenuMatchesGuards` | main.py:62-79 | remove_page is offered iff count >= 1, finish iff count == 1, merge_pdfs and reset iff count >= 2, add_pdf and cancel always — matching the guards of those actions |
| `Menu.ParseAction` | main.py:248-341 | a recognised callback string is exactly the tag of the action it yields |
| `Menu.ParseTag` | main.py:64-78 | every tag the menu sends is recognised as the same action |
| `PageInput.DigitsRoundTrip` | main.py:358-362 | reading back the decimal text of n gives n |
| `PageInput.CheckPageNumber` | main.py:358-370 | not a number iff the text is not all (ASCII) digits; a page iff all digits and 1 <= value <= page count, and then the page is the number the text spells |
| `PageInput.AcceptsEveryPage` | main.py:358-370 | typing any page number from 1 to the page count is accepted as that page |
| `PageInput.MissingCountRefusesAll` | main.py:363-365 | without a recorded page count every text is refused |
| `Handlers.DocumentGuard` | main.py:192-205 | ignored iff the state is neither waiting_pdf nor idle; then refused as not a PDF iff the MIME type is not application/pdf; then too large iff size > 50 MiB; proceeds exactly otherwise |
| `Handlers.StartCommand` | main.py:139-155 | all listed files deleted, session empty and waiting for a PDF |
| `Handlers.CancelSession` | main.py:158-167 | (the cancel button, main.py:341-346, is the same) all listed files deleted, session empty and idle |
| `Handlers.HandleDocument` | main.py:187-240 | guard failures change nothing; a failed download changes nothing; an unreadable PDF changes no session field and leaves its download deleted; success appends exactly pdf_<user>_<old length> and sets has_pdfs, with the menu for the new count |
| `Handlers.AddPdfAction` | main.py:248-255 | only the state changes, to waiting_pdf |
| `Handlers.RemovePageAction` | main.py:257-276 | an empty list or an unreadable last PDF changes nothing; otherwise state waiting_page_number and page_count recorded, list unchanged |
| `Handlers.FilesAfterMerge` | main.py:290-294 | after a merge the output exists, every other input is gone, and nothing else appears or vanishes (the corrected clean-up) |
| `Handlers.MergeAction` | main.py:278-309 | fewer than 2 PDFs or a failed merge change nothing; on success with all inputs present the list is exactly the merge output and every other input is deleted (the output is spared, the corrected clean-up); if an input vanished after the library read it (a racing event), the handler aborts after deleting the inputs before it, list unchanged; listed files keep existing |
| `Handlers.ResetAction` | main.py:311-317 | all listed files deleted, session empty and waiting for a PDF |
| `Handlers.FinishAction` | main.py:319-339 | an empty list or a failed send changes nothing; otherwise the first PDF is delivered and the whole session cleared, all listed files deleted |
| `Handlers.HandleCallback` | main.py:242-348 | unknown callback data changes nothing; each recognised action has the effect of its own handler (add_pdf, remove_page, merge_pdfs, reset, finish, cancel) on list, state, scratch data, files and reply; the invariant and other users' files are kept |
| `Handlers.HandleText` | main.py:350-402 | ignored outside waiting_page_number; a non-number or out-of-range number changes nothing; on removal success the list keeps its length, only the last entry becomes modified_<user>_<last>, the input file is deleted and the state is has_pdfs; a failed removal changes neither list nor state |
| `Bot.HandleEvent` | main.py:139-402 | each event has its handler's effect: /start and /cancel empty the session into waiting_pdf or idle; a document appends pdf_<u>_<old length> exactly when guard, download and page count pass; each button acts as its handler, a merge with too few PDFs or a failed merge changing nothing; text outside waiting_page_number, a refused number or a failed removal changes nothing, and an accepted removal replaces only the last entry, creating modified_<u>_<last> and deleting the input |
| `Bot.Dispatch` | main.py:142-143 | only the sender's session and files change; the store gains at most the sender's key and never replaces a session |
| `Findings.FilesAfterMergeAsWritten` | main.py:290-294 | the as-written clean-up deletes the output when it is among the inputs, and otherwise agrees with the corrected one |
| `Findings.MergeActionAsWritten` | main.py:278-309 | the merge callback with a clean-up loop that deletes every input, output included |
| `Findings.TwoUploads` | main.py:187-240 | /start, an accepted upload, the add_pdf button (a document is ignored in has_pdfs) and a second accepted upload leave the list [pdf_<u>_0, pdf_<u>_1] and exactly those two files |
| `Findings.SecondMergeSetup` | main.py:187-309 | two uploads, a merge, add-PDF and a third upload leave the list [merged_<u>, pdf_<u>_1], both files present |
| `Findings.SecondMergeAsWritten` | main.py:285-294 | after that sequence the code as written leaves the list [merged_<u>] with that file deleted |
| `Findings.SecondMergeCorrected` | main.py:285-294 | with the output spared, the same sequence leaves [merged_<u>] with the file present |

## Findings

| source | as written | input that shows it | evidently intended | confidence | as-written member | corrected member |
|---|---|---|---|---|---|---|
| main.py:285-294 | the merge output is always merged_<user>.pdf and the clean-up deletes every input; after an earlier merge that name is the first input, so the new result is deleted and the session lists only a missing file | upload two PDFs, merge, press "add another PDF", upload a third, merge again | the clean-up spares the output (or the output gets a fresh name), so the session keeps an existing merged file | high, not executed | Findings.SecondMergeAsWritten | Handlers.MergeAction |

## Left out

- The chat transport: handlers, message texts, button labels, `callback.answer` and the "downloading"/"merging" progress messages; a reply is reduced to its kind, its failure reason and its menu.
- The PDF library: page counting, page removal and merging are reduced to their success or failure (and the page count read), given as parameters; page counts shown after a merge or a removal are not modelled.
- `help_command` (main.py:170-185): it only replies with text and touches no session.
- `get_pdf_size_mb` (main.py:124-129): floating-point display value only.
- Configuration from the environment and logging (main.py:14-28).
- The temporary directory's location and path joining: paths are the three structured names.
- Concurrent events for the same user: events are handled one at a time.
- A failed download, merge or save is assumed to leave no file behind; a partial file is not modelled.
- `os.remove` failing for any reason other than a missing file is not modelled.
- `PageInput.IsDigitString`: accepts ASCII digits only. Python's `str.isdigit` and `int` also accept other Unicode decimal digits ("٣" is read as 3), and the handler then goes on to remove that page; the model refuses such text as not a number. Only characters that `isdigit` accepts and `int` rejects (such as "²") raise an exception that changes nothing.
- `PageInput.CheckPageNumber`: refuses non-ASCII decimal digits that the source reads as a page number (see the line above); `Handlers.HandleText` and `Bot.HandleEvent` inherit this.
- `Handlers.HandleText`: the `IndexError` path for an empty list in `waiting_page_number` is not modelled, because the session invariant rules that state out.
- `Handlers.MergeAction`: its clean-up spares the merge output, unlike main.py:291-292, which deletes every input including an output of the same name (see Findings; the code as written is `Findings.MergeActionAsWritten`); `Handlers.HandleCallback`, `Bot.HandleEvent` and `Bot.Dispatch` call this corrected merge and inherit it.
- `Bot.Dispatch`: its contract states framing and the store invariant only; what happens to the sender's session is stated by the handler it calls.
