# Face registry service — Dafny model

A model of the back end of a small face-registration service
(`face_recognition/app.py`). The service keeps a table `faces` keyed by
display name, each row holding a face encoding and a registration timestamp.
It answers six requests: `register`, `recognize`, `clear-db`, `delete-name`,
`list-db` and `chat`. After each change to the table it rebuilds a vector
index over one sentence per row, `"{name} registered at {timestamp}"`. Next
to the index it keeps `faiss_mapping`, which maps each index position back
to `(name, timestamp)`. `chat` looks up question-relevant registrations
through that index.

Files and modules:

- `text.dfy`, module `Text`: Python's `str.split`/`str.join` on one
  character. Also the data-URI strip (`split(",")[1]` when the payload has a
  comma), as used for data URIs in section 2 of RFC 2397.
- `face_store.dfy`, module `FaceStore`: the table as a sequence of rows in
  scan order, the primary key, `REPLACE INTO` (upsert), `DELETE … WHERE
  name = ?`, the `(name, timestamp)` projection, and `ORDER BY timestamp`
  (code-point text order and a sort).
- `recognition.dfy`, module `Recognition`: `compare_faces`,
  `matches.index(True)` and the first-match naming rule.
- `chat_context.dfy`, module `ChatContext`: turning search labels into
  context lines, and the prompt template.
- `face_app.dfy`, module `FaceApp`: class `Server`, which holds the global
  state (`rows`, `faissMapping`, `faissIndex`) and one method per handler.
- `scenarios.dfy`, module `Scenarios`: client methods. Using only the
  handlers' contracts, they show the service's usage scenarios: register,
  re-register, recognise, a no-face image, repeated deletes, clear then chat.

External capabilities become parameters:

- image decoding plus face detection: `detect: string -> Detection`, which
  gives an error message or the detected encodings in detection order;
- `compare_faces` with its threshold: `isMatch(known, probe)`;
- the clock: `now`;
- embedding plus nearest-neighbour search: `nearest(question, k)`, which
  gives the labels the search returns.

The vector index itself is the sequence of sentences whose embeddings it
holds, so its length is the index's `ntotal`.

The central invariant is `Server.Synced()`. It says that `faissMapping` is
the table's `(name, timestamp)` rows in order, and that the index holds one
vector per mapping entry. Every mutating handler (`SaveFace`/`Register`,
`ClearDb`, `DeleteName`) ends with `RebuildFaissIndex` and so re-establishes
it. As a result, the mapping length equals the row count after every
mutation.

## Model

| member | source | states |
|---|---|---|
| `Text.Split` | face_recognition/app.py:83 | `split(",")` gives at least one piece and no piece contains the separator; there are two or more pieces exactly when the text has the separator; the first piece is the text up to the first separator |
| `Text.Join` | face_recognition/app.py:193 | joining no pieces gives the empty text; the join starts with the first piece, and with two or more pieces the separator follows it immediately |
| `Text.JoinSplit` | face_recognition/app.py:83 | joining the pieces of a split with the separator gives back the original text |
| `Text.SplitJoin` | face_recognition/app.py:193 | splitting a join of separator-free pieces gives back the pieces (the other direction of the round trip) |
| `Text.StripDataUri` | face_recognition/app.py:82-83 | a payload without a comma is passed on unchanged; one with a comma gives a shorter, comma-free text |
| `Text.StripDataUriSegment` | face_recognition/app.py:82-83 | a payload without a comma is kept unchanged; otherwise the result is comma-free and is exactly the text from just after the first comma up to the next comma or the end |
| `Text.DataUriPayload` | face_recognition/app.py:113-114 | for a data URI `header,data` where neither part has a comma, the strip returns exactly `data` |
| `FaceStore.Lookup` | face_recognition/app.py:22-28 | finds nothing exactly when no row has the name; otherwise finds a row of the table that carries that name |
| `FaceStore.Remove` | face_recognition/app.py:160 | every row left is a row of the table with a different name, and every row with a different name is kept |
| `FaceStore.RemoveConcat` | face_recognition/app.py:160 | deleting from two runs of rows deletes from each, keeping both runs' order: the delete preserves the order of the remaining rows |
| `FaceStore.RemoveLookup` | face_recognition/app.py:160 | after the delete the name has no row, and every other name looks up as before |
| `FaceStore.RemoveAbsent` | face_recognition/app.py:160 | deleting a name that has no row leaves the table unchanged |
| `FaceStore.RemoveIdempotent` | face_recognition/app.py:160 | deleting a name twice gives the same table as deleting it once |
| `FaceStore.RemoveCount` | face_recognition/app.py:160 | a delete keeps the primary key; the row count drops by one exactly when the name had a row, otherwise it is unchanged |
| `FaceStore.Upsert` | face_recognition/app.py:56 | the new row is the last row, and every row before it is an old row with a different name |
| `FaceStore.UpsertLookup` | face_recognition/app.py:56 | after `REPLACE INTO`, the name looks up to exactly the new `(name, encoding, timestamp)` row, and every other name looks up as before |
| `FaceStore.UpsertCount` | face_recognition/app.py:24 | an upsert keeps the primary key; the row count grows by one exactly when the name was absent, otherwise it is unchanged |
| `FaceStore.UpsertKeepsOthers` | face_recognition/app.py:56 | leaving the saved name aside, the table is identical before and after the upsert, order included |
| `FaceStore.RegistrationsUpsert` | face_recognition/app.py:56-58 | after a save, the rebuilt mapping is the old mapping without the saved name's entry, followed by the new `(name, timestamp)` entry |
| `FaceStore.Describe` | face_recognition/app.py:44 | the sentence of a registration starts with the name, ends with the timestamp, and has exactly the length of `"{name} registered at {timestamp}"` |
| `FaceStore.TextLeTotal` | face_recognition/app.py:170 | any two timestamps can be compared: one is at or before the other in text order |
| `FaceStore.TextLeTransitive` | face_recognition/app.py:170 | the text order on timestamps is transitive |
| `FaceStore.Insert` | face_recognition/app.py:170 | inserting into the sorted listing adds exactly that registration, as a multiset |
| `FaceStore.SortByTimestamp` | face_recognition/app.py:170 | the sorted listing is a permutation of the input |
| `FaceStore.InsertSorted` | face_recognition/app.py:170 | inserting into a listing sorted by timestamp keeps it sorted |
| `FaceStore.SortByTimestampSorted` | face_recognition/app.py:170 | `ORDER BY timestamp` yields the registrations sorted by timestamp and a permutation of the table's |
| `Recognition.IndexOfTrue` | face_recognition/app.py:134-135 | finds nothing exactly when no verdict is true; otherwise finds a true verdict with no true verdict before it |
| `Recognition.Identify` | face_recognition/app.py:133-136 | "Unknown" when no known encoding matches; otherwise the name at the smallest matching position (first match, not closest) |
| `ChatContext.ContextLines` | face_recognition/app.py:191 | with the corrected filter: no more lines than labels; no lines exactly when no label is a position of the mapping; each line is the sentence of some mapped registration |
| `ChatContext.ContextLinesConcat` | face_recognition/app.py:191 | the comprehension filters labels one at a time and in order: the lines of `a + b` are the lines of `a` followed by the lines of `b` |
| `ChatContext.ContextLinesSingle` | face_recognition/app.py:191 | one label gives the sentence of the registration at that position when it is a position of the mapping, and no line otherwise; with `ContextLinesConcat` this fixes the lines of every label list |
| `ChatContext.ContextLinesAllValid` | face_recognition/app.py:191 | when every label is a mapping position, there is one line per label, in label order, and line `n` describes `faiss_mapping[labels[n]]` |
| `ChatContext.ContextLinesAsWritten` | face_recognition/app.py:191 | the filter as written, with Python list indexing; when it does not raise, it gives no more lines than labels |
| `ChatContext.AsWrittenAgreesWithoutPadding` | face_recognition/app.py:191 | with no negative labels, the code as written and the corrected filter give the same lines |
| `ChatContext.Prompt` | face_recognition/app.py:193-200 | the prompt starts with the fixed instructions and the "Registration Data:" header, continues with the context lines joined by newlines, and ends with the question and a newline |
| `ChatContext.PaddingRepeatsLastEntry` | face_recognition/app.py:186-191 | with one registration and labels `[0, -1, -1, -1, -1]`, the code as written gives that registration's line five times, while the corrected filter gives it once |
| `FaceApp.Server.constructor` | face_recognition/app.py:217-218 | start-up as the entry point runs it: the table the database file holds (app.py:20-29), then `rebuild_faiss_index()`, so the mapping and the index are in sync with the table, one entry per row |
| `FaceApp.Server.RebuildFaissIndex` | face_recognition/app.py:37-50 | the table is unchanged; the mapping equals the table's `(name, timestamp)` rows; the index holds one vector per row; both are empty when the table is empty |
| `FaceApp.Server.SaveFace` | face_recognition/app.py:53-58 | the new table is the upsert of `(name, encoding, now)`; that name has exactly the new row, every other name is unchanged, the count grows only if the name was new, and the mapping length equals the row count |
| `FaceApp.Server.LoadFaces` | face_recognition/app.py:61-70 | names and encodings have the same length as the table, and position `i` of each comes from row `i` |
| `FaceApp.Server.Register` | face_recognition/app.py:73-102 | a missing or empty name or image, an undecodable payload, or no detected face gives the matching error and changes nothing; otherwise the first detected face's encoding is upserted under the name with timestamp `now`, and the index is in sync |
| `FaceApp.Server.Recognize` | face_recognition/app.py:105-141 | a missing image, an undecodable payload, or no face gives the matching error; otherwise one name per detected face, in detection order, each given by the first-match rule against the table |
| `FaceApp.Server.ClearDb` | face_recognition/app.py:144-151 | the table, the mapping and the index are all empty, and the reply is "All entries deleted." |
| `FaceApp.Server.DeleteName` | face_recognition/app.py:154-165 | a missing or empty name gives "Name required" and changes nothing; otherwise only that name's row is gone (a no-op when absent), other rows are unchanged, the index is in sync, and the reply names the entry |
| `FaceApp.Server.ListDb` | face_recognition/app.py:168-174 | a success reply listing every `(name, timestamp)` of the table, sorted by timestamp, as a permutation of the table's pairs |
| `FaceApp.Server.Chat` | face_recognition/app.py:177-200 | an empty or missing message gives the warning. Otherwise the prompt is built from the context and the question, with no context when the index is empty. There are no more context lines than returned labels, so at most `k = 5`, and each line describes a registration of the mapping; with a non-empty index the lines are those of the returned labels |

## Left out

- HTTP routing, JSON decoding and encoding, and CORS (app.py:1-2, 16-17, the route decorators). These are transport. A request field is an `Option<string>`. A non-string JSON value and a body that is not JSON are not modelled.
- The SQLite engine, the cursor and `commit` (app.py:20-29). The table is a sequence of rows in scan (rowid) order. `REPLACE INTO` removes the old row and appends the new one, which is how SQLite assigns rowids. SQL does not promise any row order for a `SELECT` without `ORDER BY`, so this order is a modelling choice. It fixes the order in which `recognize` tries the stored faces.
- Storage failures (the `StoreError` that the handlers' `except` clauses would turn into a reply). The model assumes every statement succeeds. It therefore does not cover a store and index that diverge after a failed rebuild.
- Base64 decoding, PIL image opening and RGB conversion, face detection and encoding (app.py:85-91, 95, 116-126). These are foreign libraries and floating point. They are the `detect` parameter, and their exceptions are its `Undecodable(reason)` outcome.
- `compare_faces` and its distance threshold (app.py:132). This is floating point. It is the `isMatch` parameter.
- The float64 `tobytes`/`frombuffer` round trip (app.py:54, 67). It is a floating-point representation, so an encoding is stored and read back as the same value.
- The sentence-embedding model, the 384-dimension vectors and the FAISS search (app.py:32-34, 48-49, 184, 190). These are external and floating point. The index holds the embedded sentences, and the search is the `nearest` parameter.
- The HTTP call to the completion service and the parsing of its reply (app.py:202-215). This is network I/O. `Chat` stops at the prompt it would send.
- `datetime.now().isoformat()` (app.py:55). The clock is the `now` parameter.
- Concurrent requests on the shared connection and shared index (app.py:20, `check_same_thread=False`). Handlers run one at a time.
- FaceApp.Server.constructor: it models start-up through the `__main__` block (app.py:217-218), which rebuilds the index before serving. When the module is imported by another runner, that block does not run and the index starts empty although the table may not be; that start is not modelled.
- FaceApp.Server.Chat: FAISS's promise that a search for `k` neighbours returns `k` labels is taken as the precondition that `nearest(q, 5)` returns at most 5 labels.
- FaceApp.Server.Chat: it uses the corrected label filter (`0 <= i < len(faiss_mapping)`), not the filter as written. The code as written is `ChatContext.ContextLinesAsWritten`; see Findings.
- FaceApp.Server.ListDb: SQL leaves the order of rows with equal timestamps open. The model's sort keeps them in scan order, but the contract promises only sortedness and permutation.
- The React client (`client/src/*.js`) and the chat proxy (`chat_server/server.js`). They are user interface and an HTTP pass-through.

## Findings

| source | as written | input that shows it | evidently intended | confidence | as-written member | corrected member |
|---|---|---|---|---|---|---|
| face_recognition/app.py:191 | the context keeps every label `i < len(faiss_mapping)`. A flat FAISS index with fewer than `k = 5` vectors pads its labels with `-1`, which passes this test. `faiss_mapping[-1]` is then the last registration, so that registration is repeated in the context | one registration and labels `[0, -1, -1, -1, -1]`: five identical context lines (lemma `ChatContext.PaddingRepeatsLastEntry`) | keep only labels `0 <= i < len(faiss_mapping)`, giving one line per real hit: here one line | likely; not executed | `ChatContext.ContextLinesAsWritten` | `ChatContext.ContextLines` |
