# Salon AI receptionist — escalation workflow and knowledge base

The salon receptionist backend answers customer questions with a
retrieval-augmented generator. It escalates to a human supervisor when the
generated answer sounds unsure. It also learns from the supervisor's replies.
This project models the backend's core in Dafny and proves properties of the
model:

- **`SalonApi`** (`backend/main.py`): the request handlers.
  - The three globals: `pending_requests`, `user_updates` and `request_counter`.
  - `handle_query`: deliver a waiting mailbox entry first, otherwise generate
    an answer and escalate it when it contains a trigger phrase.
  - `supervisor_respond`: resolve a request, refine the supervisor's answer,
    store the exchange in the knowledge base and queue it for the user.
  - `check_updates`, `view_pending`, `delete_pending`, `view_knowledge` and
    `refine_text`.

  Each handler is a pure step on a `Registry` value. The class `AppState`
  holds the globals as fields, and each of its methods is proved to take
  exactly that step. Lemmas relate the steps: the mailbox is delivered exactly
  once, the last write wins, ids never repeat, a resolved request leaves the
  pending view, and validity of the globals holds over any run of requests.
- **`KnowledgeBase`** (`backend/knowledge_base.py`):
  - the lower-case whitespace tokenizer;
  - the start-up choice between the stored index and an empty 384-dimension one;
  - `persist_index`, `add_document`, `query_context` (skips out-of-range hits,
    returns nothing for an empty store) and `seed_knowledge`.

  The class `Store` holds the index, the metadata list and the two files.
- **`OllamaClient`** (`backend/ollama_client.py`):
  - `build_prompt`: the template filled with context and question, then stripped;
  - the streamed-reply parser of `ask_ollama`, proved against a `Chunks`
    function on the reply's lines;
  - the unreachable-generator branch;
  - `generate_answer` as their composition.
- **`HelpRequestDb`** (`backend/db.py`): the TinyDB help-request table as a
  class over its list of records.
- **`Text`**: the Python string built-ins the core relies on: `lower`,
  `strip`, `split()`, `split(sep)`, `join`, `in` and `str(int)`.
- **`Wrappers`**: `Option`.

The embedding model, the FAISS search and the HTTP post to the generator are
not modelled as code. They are function-typed parameters bundled in
`OllamaClient.Services`. A handler that calls the generator is therefore
specified in terms of `OllamaClient.GeneratedAnswer`, which is what the
pipeline answers given the current store and those services.

Where the design notes and the code disagree, the model follows the code:

- `supervisor_respond` checks only that the id is stored, not that the
  request is still pending. A resolved request can be answered again, which
  replaces both answers and the mailbox entry (`SalonApi.ResolvedCanBeAnsweredAgain`).
- When the generator cannot be reached, `ask_ollama` returns a warning string.
  That string is classified by the same keyword test as any other answer. It
  is not treated as unsure per se.
- When the generator fails during refinement, the code does not fall back to
  the supervisor's raw answer. The refined answer is whatever
  `generate_answer` returned, the warning string included.
- `backend/db.py` is not used by `backend/main.py`, which keeps its state in
  in-memory dicts. The table is modelled on its own.
- The supervisor dashboard deletes through `/delete_request/{id}`, but the
  backend route is `/pending/{id}` (`frontend/supervisor_dashboard.py:91`
  against `backend/main.py:119`). The frontend is not part of this model.

## Model

| member | source | states |
|---|---|---|
| Text.IsSpace | backend/ollama_client.py:57 | definition: the characters Python's `str.isspace` accepts (ASCII whitespace, the separators U+001C..U+001F, U+0085, U+00A0 and the Unicode space separators) |
| Text.Lower | backend/knowledge_base.py:46 | `lower()` keeps the length, replaces each ASCII capital by its small letter and leaves no capital behind |
| Text.LowerIdempotent | backend/knowledge_base.py:46 | lowering an already lowered text changes nothing |
| Text.TrimStart | backend/ollama_client.py:57 | `lstrip()`: the result is a suffix of the text, everything cut off is whitespace, and it does not start with whitespace |
| Text.TrimEnd | backend/ollama_client.py:57 | `rstrip()`: the result is a prefix of the text, everything cut off is whitespace, and it does not end with whitespace |
| Text.Strip | backend/ollama_client.py:57 | `strip()` never lengthens the text and leaves no whitespace at either end |
| Text.StripPadded | backend/ollama_client.py:32 | stripping whitespace padding off a core whose ends are not whitespace gives the core back |
| Text.StripKeeps | backend/main.py:79 | `strip()` only removes characters: a character absent from the text is absent from the result |
| Text.StripIdempotent | backend/ollama_client.py:57 | stripping twice is stripping once |
| Text.Word | backend/knowledge_base.py:46 | the longest whitespace-free prefix: a prefix, free of whitespace, ending at whitespace or the end of the text, non-empty when the text starts with a non-space |
| Text.Split | backend/knowledge_base.py:46 | definition of `split()` without a separator: drop leading whitespace, take the next word, repeat on the rest; nothing for an all-whitespace text |
| Text.Join | backend/ollama_client.py:16 | definition of `sep.join(parts)`: the parts in order with `sep` between neighbours, `""` for no parts |
| Text.SplitPieces | backend/knowledge_base.py:46 | every piece of `split()` is non-empty and free of whitespace |
| Text.SplitJoin | backend/knowledge_base.py:46 | `split()` of non-empty whitespace-free words joined by single spaces gives the words back |
| Text.IndexOf | backend/main.py:42 | the result is the first position where the pattern occurs, or none when it occurs nowhere |
| Text.Contains | backend/main.py:42 | definition of `p in s`: `s.find(p)` finds a position |
| Text.ContainsIff | backend/main.py:42 | `p in s` holds exactly when `p` occurs in `s` at some position |
| Text.OccursAtLower | backend/main.py:42 | wherever a phrase occurs in a text, its lower-cased form occurs in the lower-cased text at the same place |
| Text.SplitOn | backend/ollama_client.py:54 | `split(sep)` gives at least one piece, two or more exactly when `sep` occurs, and the first piece is the text before the first `sep` |
| Text.SplitOnJoin | backend/ollama_client.py:54 | joining the pieces of `split(sep)` with `sep` gives the text back |
| Text.TakeUntil | backend/ollama_client.py:54 | the longest prefix without the character: it is a prefix, lacks the character, and stops at the character or the end |
| Text.Gather | backend/ollama_client.py:49-55 | definition of the accumulation loop as a fold: the pieces made of each element, concatenated in order (`GatherAppend` is its law) |
| Text.GatherAppend | backend/ollama_client.py:49-55 | concatenating the chunks of the lines distributes over concatenation of the line lists |
| Text.IntString | backend/main.py:127 | definition of `str(n)` for any integer: a minus sign before the digits of `-n` for negative `n` |
| Text.NatString | backend/main.py:127 | `str(n)` is a non-empty string of decimal digits without a leading zero |
| Text.NatStringRoundTrip | backend/main.py:127 | reading `str(n)` back as a decimal gives `n` |
| Text.IntStringInjective | backend/main.py:127 | distinct integers print differently (an extra: the source promises nothing about it; it backs `SalonApi.DeletedNoticeNamesId`) |
| KnowledgeBase.UnkTokenId | backend/knowledge_base.py:43 | definition of `vocab.get("[UNK]", 1)` |
| KnowledgeBase.TokenId | backend/knowledge_base.py:47 | definition of `vocab.get(tok, unk_token_id)` |
| KnowledgeBase.Tokenize | backend/knowledge_base.py:45-47 | definition of `tokenize`: one id per piece of `text.lower().split()`, in order (its laws are the three lemmas below) |
| KnowledgeBase.TokenizeWords | backend/knowledge_base.py:45-47 | tokenizing lower-case words joined by spaces looks each word up in the vocabulary, in order, one id per word |
| KnowledgeBase.TokenizeIgnoresCase | backend/knowledge_base.py:46 | tokenizing ignores the case of ASCII letters |
| KnowledgeBase.UnknownToken | backend/knowledge_base.py:43-47 | a token missing from the vocabulary gets the id of `[UNK]`, or 1 when `[UNK]` is missing too |
| KnowledgeBase.ContextTexts | backend/knowledge_base.py:118-122 | definition of the result list: for each hit in order, the metadata text of that row when the hit is in range, nothing otherwise |
| KnowledgeBase.ContextTextsAppend | backend/knowledge_base.py:119-121 | results follow hit order: the texts for `a + b` are those for `a` followed by those for `b` |
| KnowledgeBase.SkipsOutOfRange | backend/knowledge_base.py:120 | a hit outside the metadata, such as FAISS's `-1`, contributes nothing |
| KnowledgeBase.ContextTextsLength | backend/knowledge_base.py:118-122 | there are at most as many texts as hits, and when every hit is in range the texts are exactly those rows, in order |
| KnowledgeBase.ContextTextsSound | backend/knowledge_base.py:118-122 | every returned text is the text of a metadata row whose number the search returned |
| KnowledgeBase.Store.Retrieve | backend/knowledge_base.py:111-122 | definition of what `query_context` returns: nothing for an empty metadata list, else `ContextTexts` of the search hits for the query's embedding |
| KnowledgeBase.Entries | backend/knowledge_base.py:107 | the metadata entries `{"text": t}` for a list of texts, one per text, in order |
| KnowledgeBase.Embeddings | backend/knowledge_base.py:105-106 | the index rows for a list of texts: the embedding of each text, in order |
| KnowledgeBase.Store.Load | backend/knowledge_base.py:88-95 | both files present: the stored index and metadata are loaded; otherwise an empty 384-dimension index with empty metadata |
| KnowledgeBase.Store.PersistIndex | backend/knowledge_base.py:98-101 | afterwards both files hold exactly the in-memory index and metadata, which are unchanged |
| KnowledgeBase.Store.AddDocument | backend/knowledge_base.py:104-108 | one embedding row and one `{"text"}` entry are appended, both files are rewritten, and index and metadata stay aligned |
| KnowledgeBase.Store.QueryContext | backend/knowledge_base.py:111-122 | the loop returns the texts of the in-range hits in hit order, and nothing for an empty store |
| KnowledgeBase.Store.SeedKnowledge | backend/knowledge_base.py:125-137 | the six sample documents and their embeddings are appended in order, the files are persisted, alignment is kept |
| KnowledgeBase.RetrieveAtMostTopK | backend/knowledge_base.py:111-122 | when the search returns at most `top_k` rows, retrieval returns at most `top_k` texts |
| KnowledgeBase.SeededHaircutFirst | backend/knowledge_base.py:125-135 | after seeding an empty store, a search whose best hit is row 0 puts the men's haircut price first |
| OllamaClient.ContextText | backend/ollama_client.py:15-16 | definition: the retrieved documents joined by line breaks, or `No salon data found.` when there are none |
| OllamaClient.PromptTemplate | backend/ollama_client.py:18-31 | definition of the f-string: a line break, the instruction head, the context, the question section, `Answer:`, a line break |
| OllamaClient.BuildPrompt | backend/ollama_client.py:13-32 | definition of the returned prompt: the template without its surrounding line breaks (`BuildPromptStripsTemplate` proves it is the stripped template) |
| OllamaClient.ContextTextLines | backend/ollama_client.py:15-16 | when no document spans a line break, splitting the context text at line breaks gives the documents back |
| OllamaClient.BuildPromptTrimmed | backend/ollama_client.py:13-32 | the prompt is non-empty and has no whitespace at either end |
| OllamaClient.BuildPromptStripsTemplate | backend/ollama_client.py:18-32 | the prompt is the stripped f-string: stripping removes only its opening and closing line break |
| OllamaClient.BuildPromptMentions | backend/ollama_client.py:18-31 | the prompt holds the context text and the question, each at the place the template gives it |
| OllamaClient.Chunk | backend/ollama_client.py:54 | definition of `data.split('"response":"')[1].split('"')[0]`, for a line holding the marker |
| OllamaClient.LineChunk | backend/ollama_client.py:51-54 | definition: what one line adds, its chunk when it is non-empty and holds the marker, else nothing |
| OllamaClient.ChunkAfterMarker | backend/ollama_client.py:53-54 | a chunk is the text after the first `"response":"` up to the next double quote or the end of the line |
| OllamaClient.LineChunkNoQuote | backend/ollama_client.py:54 | no chunk contains a double quote |
| OllamaClient.ResponseLine | backend/ollama_client.py:51-55 | a line `pre "response":" text " rest`, with no earlier marker, contributes exactly `text` |
| OllamaClient.Chunks | backend/ollama_client.py:49-55 | definition of the accumulated answer: the `LineChunk`s of the lines, concatenated in line order |
| OllamaClient.AskResult | backend/ollama_client.py:34-57 | definition of what `ask_ollama` returns: the warning prefix plus the error text for a failed request, else the stripped `Chunks` of the lines |
| OllamaClient.ChunksAppend | backend/ollama_client.py:49-55 | the answer for the lines `a + b` is the answer for `a` followed by the answer for `b` |
| OllamaClient.IgnoredLine | backend/ollama_client.py:51-53 | empty lines and lines without the marker contribute nothing |
| OllamaClient.ChunksNoQuote | backend/ollama_client.py:49-55 | the gathered answer contains no double quote |
| OllamaClient.StreamedAnswerShape | backend/ollama_client.py:57 | a reachable generator's answer has no double quote and no whitespace at either end |
| OllamaClient.AskOllama | backend/ollama_client.py:34-57 | on a request failure the answer is the warning prefix plus the error text; otherwise the loop gathers `Chunks` of the lines and strips it |
| OllamaClient.GeneratedAnswer | backend/ollama_client.py:59-61 | definition: `AskResult` of posting `BuildPrompt` of the query and what the store retrieves for it with `top_k` 50 |
| OllamaClient.GenerateAnswer | backend/ollama_client.py:59-61 | the answer is what the generator says to the prompt built from the query and the context retrieved for it |
| SalonApi.AnyIn | backend/main.py:42 | `any(k in text for k in keywords)` holds exactly when some keyword occurs in the text |
| SalonApi.NeedsSupervisor | backend/main.py:41-42 | definition of the escalation test: some trigger phrase occurs in the lower-cased answer |
| SalonApi.NeedsSupervisorIff | backend/main.py:41-42 | a query is escalated exactly when the lower-cased answer holds one of the five trigger phrases |
| SalonApi.TriggerInAnyCase | backend/main.py:42 | a trigger phrase in any letter case anywhere in the answer escalates the query |
| SalonApi.PromisedConfirmationEscalates | backend/main.py:41-42 | the reply the prompt asks for when the context lacks the answer ("I'll confirm with my supervisor later") escalates |
| SalonApi.RefinementPrompt | backend/main.py:71-78 | definition of the refinement f-string with the question and the supervisor's answer filled in |
| SalonApi.RefinementPromptMentions | backend/main.py:71-78 | the refinement prompt carries the question and the supervisor's answer where the template puts them |
| SalonApi.KnowledgeDoc | backend/main.py:85 | definition of the stored document `f"Q: {question} A: {refined}"` |
| SalonApi.KnowledgeDocMentions | backend/main.py:85 | the stored document is `Q: ` question ` A: ` refined answer, with each part at its place |
| SalonApi.QueryStep | backend/main.py:25-54 | definition of `handle_query` on the globals, given the generated answer: mailbox first, then escalation on a trigger phrase, else the answer (laws: `MailboxFirst`, `EscalationIff`, `EscalationRecord`, `ConfidentAnswer`) |
| SalonApi.RespondStep | backend/main.py:57-97 | definition of `supervisor_respond` on the globals, given the stripped refinement: the error for an unknown id, else resolve and fill the mailbox (laws: `UnknownIdRejected`, `RespondEffects`) |
| SalonApi.PollStep | backend/main.py:100-109 | definition of `check_updates` on the globals: pop the user's entry or report no update (law: `PollTakesOnce`) |
| SalonApi.DeleteStep | backend/main.py:119-127 | definition of `delete_pending` on the globals: the error for an unknown id, else drop the key (laws: `DeleteUnknown`, `DeleteKnown`) |
| SalonApi.DeletedNotice | backend/main.py:127 | definition of `f"Request {request_id} deleted successfully."` |
| SalonApi.PendingOf | backend/main.py:112-116 | the view holds exactly the requests whose status is pending, under their own ids |
| SalonApi.MailboxFirst | backend/main.py:31-37 | a waiting mailbox entry is delivered and removed before any generation; the answer plays no part and nothing else changes |
| SalonApi.EscalationIff | backend/main.py:39-54 | with an empty mailbox a query is escalated exactly when the answer trips the test, and answered exactly when it does not |
| SalonApi.EscalationRecord | backend/main.py:43-52 | an escalation files a pending request under the current counter, which no request holds yet, bumps the counter and keeps every other entry |
| SalonApi.ConfidentAnswer | backend/main.py:54 | a confident answer is returned as is and changes no state |
| SalonApi.UnknownIdRejected | backend/main.py:63-64 | answering an unknown id is the `Invalid request ID.` error and changes nothing |
| SalonApi.RespondEffects | backend/main.py:66-91 | answering a stored id resolves it with both answers, replaces the asker's mailbox entry, and leaves the other requests and the counter alone |
| SalonApi.ResolvedCanBeAnsweredAgain | backend/main.py:63-69 | only key presence is checked, so a resolved request can be answered again |
| SalonApi.LastWriteWins | backend/main.py:87-91 | after two answers for the same user only the later one is in the mailbox |
| SalonApi.RespondThenPollOnce | backend/main.py:100-109 | after an answer the user's next poll receives it and the poll after that receives nothing |
| SalonApi.RespondThenQueryDelivers | backend/main.py:31-37 | after an answer the user's next query receives the refined answer instead of a new generation |
| SalonApi.PollTakesOnce | backend/main.py:105-109 | a poll returns the mailbox entry if any, touches nothing else, and a second poll finds nothing |
| SalonApi.RespondLeavesPendingView | backend/main.py:112-116 | a resolved request leaves the pending view, which is otherwise unchanged |
| SalonApi.EscalationShowsPending | backend/main.py:43-48 | an escalated question shows up in the pending view under its new id |
| SalonApi.DeleteUnknown | backend/main.py:123-124 | deleting an unknown id is the `Request not found.` error and changes nothing |
| SalonApi.DeleteKnown | backend/main.py:126-127 | deleting a stored id removes only that key and keeps the counter above it, so it is never issued again |
| SalonApi.DeletedNoticeNamesId | backend/main.py:127 | distinct ids get distinct deletion messages (an extra: the source promises nothing about it; it shows that the message names the deleted id) |
| SalonApi.Step | backend/main.py:25-127 | definition: the globals after one handler call |
| SalonApi.Run | backend/main.py:25-127 | definition: the globals after a sequence of handler calls, in order |
| SalonApi.Issued | backend/main.py:43-48 | definition: the ids under which the calls of a sequence filed new requests, in order |
| SalonApi.QueryKeepsValid | backend/main.py:43-48 | a query keeps every stored id below the counter and every request consistent |
| SalonApi.RespondKeepsValid | backend/main.py:66-82 | an answer keeps every stored id below the counter and every request consistent |
| SalonApi.StepKeepsValid | backend/main.py:25-127 | each handler keeps the globals valid |
| SalonApi.RunKeepsValid | backend/main.py:25-127 | any sequence of requests keeps the globals valid |
| SalonApi.IssuedConsecutive | backend/main.py:43-48 | the ids filed over a run are consecutive from the starting counter, which ends up advanced by their number |
| SalonApi.FromStartUp | backend/main.py:9-12 | from start-up the filed ids are 1, 2, 3, ... and every stored id is one of them |
| SalonApi.NoReissue | backend/main.py:119-127 | an id once stored, deleted or not, is below every id filed later |
| SalonApi.AppState.constructor | backend/main.py:9-12 | start-up: no requests, no mailbox entries, counter 1 |
| SalonApi.AppState.HandleQuery | backend/main.py:25-54 | takes exactly the query step, with the answer the pipeline gives before the call, and keeps the globals valid |
| SalonApi.AppState.TakeUpdate | backend/main.py:31-37 | the mailbox branch: takes exactly the query step, and keeps the globals valid |
| SalonApi.AppState.AnswerOrEscalate | backend/main.py:41-54 | the keyword test and the escalation: takes exactly the query step for the given answer, and keeps the globals valid |
| SalonApi.AppState.SupervisorRespond | backend/main.py:57-97 | unknown id: an error with globals and store unchanged; otherwise the respond step with the stripped refinement, and the store gains `Q: ... A: ...` |
| SalonApi.AppState.Resolve | backend/main.py:66-91 | the registry half of the response: takes exactly the respond step, and keeps the globals valid |
| SalonApi.AppState.CheckUpdates | backend/main.py:100-109 | takes exactly the poll step and keeps the globals valid |
| SalonApi.AppState.ViewPending | backend/main.py:112-116 | returns exactly the stored requests whose status is pending |
| SalonApi.AppState.DeletePending | backend/main.py:119-127 | takes exactly the delete step and keeps the globals valid |
| SalonApi.AppState.ViewKnowledge | backend/main.py:130-132 | returns what retrieval gives for `salon`, and nothing for an empty store |
| SalonApi.AppState.RefineText | backend/main.py:135-141 | the stripped generation for the polishing prompt with the `prompt` field, or `""` when absent; no whitespace at either end |
| HelpRequestDb.NewRecord | backend/db.py:5-15 | definition of the document `add_help_request` inserts into a table of `n` records: id `n + 1`, pending, no answer |
| HelpRequestDb.PendingRecords | backend/db.py:22-25 | the pending search, in table order; it never returns more records than the table holds (membership is `PendingMembers`) |
| HelpRequestDb.SequentialIds | backend/db.py:7 | definition: the ids are 1..n in table order, as `len(db) + 1` hands them out |
| HelpRequestDb.WithAnswer | backend/db.py:17-20 | the update keeps the table length, resolves with the answer every record with the id, and leaves the other records unchanged |
| HelpRequestDb.PendingMembers | backend/db.py:22-25 | the pending search returns exactly the pending records of the table |
| HelpRequestDb.PendingAppend | backend/db.py:22-25 | the search keeps table order |
| HelpRequestDb.AddShowsPending | backend/db.py:5-15 | a new record shows up at the end of the pending search |
| HelpRequestDb.UpdateMissingIsNoOp | backend/db.py:17-20 | an update whose id matches no record leaves the table as it was |
| HelpRequestDb.UpdateLeavesPending | backend/db.py:17-20 | after an update no record with that id is pending |
| HelpRequestDb.UpdateKeepsIds | backend/db.py:17-20 | updates keep the ids 1..n in table order |
| HelpRequestDb.AddKeepsIds | backend/db.py:5-15 | inserting under `len(db) + 1` keeps the ids 1..n in table order |
| HelpRequestDb.UpdateTouchesOne | backend/db.py:17-20 | with ids 1..n an update changes exactly the record at position `id - 1` |
| HelpRequestDb.Table.Open | backend/db.py:3 | the table holds what its file holds |
| HelpRequestDb.Table.AddHelpRequest | backend/db.py:5-15 | returns `len(db) + 1`, appends a pending unanswered record under it, and extends the pending search by it |
| HelpRequestDb.Table.UpdateHelpRequest | backend/db.py:17-20 | the table becomes the updated one, with no pending record left under the id |
| HelpRequestDb.Table.GetPending | backend/db.py:22-25 | exactly the pending records, in table order |
| HelpRequestDb.Table.GetAll | backend/db.py:27-29 | every record |

## Left out

- The embedding model (`embed_text`, the ONNX session, the tokenizer download) is not modelled as code. `embed` is a parameter; `KnowledgeBase.Tokenize` models only the tokenizer.
- FAISS search is a parameter. Distances are not modelled; only the returned row numbers are.
- The HTTP call to the generator, its authentication and the environment variables are not modelled. `post` is a parameter that either fails with an error text or yields the decoded lines.
- Decoding bytes as UTF-8 is not modelled: lines arrive as strings. Errors raised in the middle of the stream are not modelled either.
- The services are pure function parameters, so a repeated call with the same input gives the same answer. The nondeterminism of a real generator is not captured.
- File reading and writing is not modelled: the two knowledge-base files are fields, and the TinyDB file is the table's list of records.
- Concurrency, FastAPI routing, request validation, the frontend, `backend/st_patch.py` and `backend/test_pipeline.py` are left out.
- `resolved_requests` (`backend/main.py:10`) is never read or written apart from its declaration, so it is not modelled.
- A mailbox entry also carries the constant `"status": "resolved_from_supervisor"`. `SalonApi.Update` leaves that constant out.
- `KnowledgeBase.Store.AddDocument`, `KnowledgeBase.Store.SeedKnowledge` and `SalonApi.AppState.SupervisorRespond` require embeddings of the index's dimension. FAISS raises an error on a mismatch, and raised errors are not modelled.
- `KnowledgeBase.Store.SeedKnowledge`: the message `seed_knowledge` prints after seeding (`backend/knowledge_base.py:137`) is left out; the model has no output.
- Errors raised by the embedder, by FAISS or by writing the two files are not modelled. An operation either completes or is not modelled at all, so `add_document` always stores the document and persists it.
- `KnowledgeBase.Store.Load` requires a stored index to be well formed, as FAISS guarantees for a file it wrote.
- `Text.Lower`: lower-cases ASCII letters only; Python's Unicode case mapping is not modelled.
- `SalonApi.AppState.SupervisorRespond`: in the source, the status and raw answer are written through an alias before the generator is called. The model computes the refinement first and writes the request once. With exceptions left out, the two orders give the same final state.
- `SalonApi.AppState.RefineText`: it takes the `prompt` field as an optional string. A non-string JSON value in that field is not modelled.
- The model proves that a supervisor request is rejected for an unknown id. It does not model a client that sends a malformed request id; FastAPI rejects those before the handler runs.
