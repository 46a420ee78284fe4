# Gemini Live persistence and configuration, modelled in Dafny

This project models the server side of Open WebUI's Gemini Live support.
That is the part that stores live sessions and their transcripts, and the
part that serves Gemini settings and model lists over HTTP.

- `gemini_live.dfy` (module `GeminiLive`) models two tables: `gemini_session`, a
  map from session id to a `Session` row, and `gemini_transcript`, a sequence of
  `Transcript` rows. Both live in one `Store` class. Its methods are the mutating
  operations of `GeminiSessionsTable` and `GeminiTranscriptsTable`: create,
  update, increment, delete, add. The read queries are pure functions of the
  table contents: by id, by user, active, by session, recent, count and since.
  The context formatter `format_transcript_for_context` is a method with a loop,
  proved equal to a specification function.
- `gemini_router.dfy` (module `GeminiRouter`) models the decision logic of the
  `/gemini` router. The mutable settings are a `GeminiConfig` class, and the
  admin update overwrites its fields. The read-only endpoints are functions of a
  `Settings` value. The `/models` transformation is a method with the source's
  loop and its `continue`. Endpoint failures are `HttpError(code)`.
- `seqs.dfy` and `strings.dfy` hold the generic pieces used above. `Seqs` has
  filter, stable sort by key, take, drop and reverse; these stand for SQL
  `WHERE`, `ORDER BY`, `LIMIT`, `OFFSET` and Python's `reverse()`. `Strings` has
  Python's `join`, substring `in`, `replace(p, "")` and single-character
  `replace`. `wrappers.dfy` holds `Option`.

The clock and the uuid generator are parameters. Each separate `time.time()`
call in the source gets its own parameter:
- `update_session` reads the clock once for `last_summary_at` and again for
  `updated_at`;
- `add_transcript` reads it for the row and again inside `increment_message_count`.

Two notes on what `update_session` does:
- the `status` column comment (gemini_live.py:30) lists `active`, `timeout` and
  `ended`, but `update_session` (gemini_live.py:208-209) stores any status
  string, including a move back to `active`. The model follows the code:
  `ApplyUpdate` can set any status;
- `update_session` never writes `message_count`, also when it stores a summary;
  `ApplyUpdate` keeps the count.

## Model

| member | source | states |
|---|---|---|
| `GeminiLive.GetSessionById` | backend/open_webui/models/gemini_live.py:142-150 | Returns the stored row for a known id and None for an unknown id; `CreateSession`, `UpdateSession` and `DeleteSession` state what it returns after them (the new row, the updated row, None). |
| `GeminiLive.ApplyUpdate` | backend/open_webui/models/gemini_live.py:203-211 | Only the fields passed as non-None change; `updated_at` is always refreshed; a summary also sets `last_summary_at` to its clock reading; every other field is unchanged. |
| `GeminiLive.Incremented` | backend/open_webui/models/gemini_live.py:227-228 | `message_count` becomes exactly one more than before, with a null count taken as 0; `updated_at` is refreshed; nothing else changes. |
| `GeminiLive.SessionsByUserIdSpec` | backend/open_webui/models/gemini_live.py:159-169 | A page of a user's session listing has `min(limit, n - offset)` rows, where `n` is the user's session count (0 when the offset passes the end). Each row is a stored row of that user, no row occurs more often than it is listed, and rows are ordered by `updated_at` descending. |
| `GeminiLive.UserRowCount` | backend/open_webui/models/gemini_live.py:162-163 | The rows of the table that the user's query filters are exactly as many as the stored sessions of that user. |
| `GeminiLive.SessionsFirstPageSpec` | backend/open_webui/models/gemini_live.py:159-169 | With no offset, no session of the user that is left out was updated later than any returned one; when `limit` is at least the user's session count, every session of the user is returned. |
| `GeminiLive.ActiveSessionSpec` | backend/open_webui/models/gemini_live.py:176-184 | The active-session query returns None exactly when the user has no active session; otherwise it returns one of the user's active sessions with the greatest `updated_at`. |
| `GeminiLive.TranscriptsBySessionIdSpec` | backend/open_webui/models/gemini_live.py:296-306 | The by-session query returns `min(limit, count - offset)` rows (0 when the offset passes the end), all from that session, ascending by timestamp, and a sub-multiset of the session's rows. |
| `GeminiLive.TranscriptsFirstPageSpec` | backend/open_webui/models/gemini_live.py:296-306 | With no offset, the page holds the session's earliest rows: any row left out is no older than every row returned. With a limit covering the count, it returns exactly the session's rows with their multiplicities. |
| `GeminiLive.RecentTranscriptsSpec` | backend/open_webui/models/gemini_live.py:317-328 | Returns `min(limit, count)` rows of the session in non-decreasing timestamp order, a sub-multiset of the session's rows; any session row left out (stored more often than returned) is no newer than every row returned. |
| `GeminiLive.TranscriptsSinceSpec` | backend/open_webui/models/gemini_live.py:352-363 | The since-query returns exactly the session's rows with timestamp strictly greater than `since`, each as often as it is stored, in ascending timestamp order. |
| `GeminiLive.CountAfterAppend` | backend/open_webui/models/gemini_live.py:335-341 | Adding a transcript raises its own session's count by one and leaves every other session's count unchanged. |
| `GeminiLive.WithoutSessionIsolates` | backend/open_webui/models/gemini_live.py:367-376 | After a session's transcripts are deleted, that session has no rows and no since-rows; every other session keeps exactly its rows, in order, and the same since-query results. |
| `GeminiLive.AppendedIsFound` | backend/open_webui/models/gemini_live.py:271-282 | A transcript just added is among its session's rows, and among the rows since any earlier timestamp. |
| `GeminiLive.FormatTranscriptForContext` | backend/open_webui/models/gemini_live.py:378-386 | The loop that builds one line per transcript and joins them with newlines returns exactly the specified context text. |
| `GeminiLive.FormattedContextAppend` | backend/open_webui/models/gemini_live.py:382-386 | The empty list formats to ""; one transcript formats to its line; one more transcript appends "\n" and its line, so lines appear in input order. |
| `GeminiLive.LineLabel` | backend/open_webui/models/gemini_live.py:384-385 | A line starts with "[USER]: " exactly when the role is "user"; any other role gives a line starting with "[GEMINI]: ". |
| `GeminiLive.FormattedContextExample` | backend/open_webui/models/gemini_live.py:382-386 | A user turn "hi" followed by an assistant turn "hello" formats to "[USER]: hi\n[GEMINI]: hello". |
| `GeminiLive.Store.CreateSession` | backend/open_webui/models/gemini_live.py:115-140 | The new session has the given id, user, model and voice, status "active", count 0, no title or summary, and created_at = updated_at = now; it is the only map entry that changes, and transcripts are untouched. |
| `GeminiLive.Store.UpdateSession` | backend/open_webui/models/gemini_live.py:188-216 | Returns None with no change for an unknown id or another user's session; otherwise it replaces only that session with its `ApplyUpdate` and returns it. Transcripts are untouched. |
| `GeminiLive.Store.IncrementMessageCount` | backend/open_webui/models/gemini_live.py:218-233 | Returns None with no change for an unknown id; otherwise it replaces only that session with its `Incremented` and returns it. |
| `GeminiLive.Store.DeleteSession` | backend/open_webui/models/gemini_live.py:235-250 | Returns true exactly when the caller owns the session. Then the session and every transcript of it are removed and all else stays; otherwise it returns false and nothing changes. |
| `GeminiLive.Store.AddTranscript` | backend/open_webui/models/gemini_live.py:259-287 | Appends exactly one transcript carrying the given fields and timestamp = now. It then increments the owning session's count, or changes no session if the id is unknown. |
| `GeminiLive.Store.DeleteTranscriptsBySessionId` | backend/open_webui/models/gemini_live.py:367-376 | Removes exactly that session's transcripts, keeps the others in order, leaves sessions alone and reports success. |
| `Strings.Contains` | backend/open_webui/routers/gemini.py:195 | Python's substring test: true exactly when the needle occurs at some index of the haystack. |
| `GeminiRouter.ModelIdStripsPrefix` | backend/open_webui/routers/gemini.py:192 | A provider name `models/<rest>` yields the id `<rest>` when `<rest>` holds no further "models/". |
| `GeminiRouter.KeptModelsSpec` | backend/open_webui/routers/gemini.py:190-209 | The output is no longer than the input and preserves input order. A raw model is kept iff it lists "generateContent" or supports live; each kept model becomes its entry with the defaults filled in. |
| `GeminiRouter.GetModels` | backend/open_webui/routers/gemini.py:180-211 | With no usable first key the list is empty; otherwise the loop with `continue` produces exactly the kept-model entries. |
| `GeminiRouter.GeminiConfig.UpdateConfig` | backend/open_webui/routers/gemini.py:125-150 | A voice outside the allowed list gives 400 and changes no setting. Otherwise keys, live switch and voice equal the form, the answer echoes them with status "ok", and a valid configured voice stays valid. |
| `GeminiRouter.GetUserConfig` | backend/open_webui/routers/gemini.py:153-162 | Reports enabled iff the key list is non-empty, its first key is non-empty and live is enabled. |
| `GeminiRouter.VerifyConnection` | backend/open_webui/routers/gemini.py:165-177 | 400 iff there is no usable first key; otherwise 401 iff the provider rejects that key, and success iff it accepts it. |
| `GeminiRouter.GetLiveModels` | backend/open_webui/routers/gemini.py:214-240 | Disabled with no models, voice or voices when live is off or there is no key. Otherwise it has one entry per configured live model id, in order, each marked as supporting live, plus the configured voice and voice list. |
| `GeminiRouter.GetApiKeyForLive` | backend/open_webui/routers/gemini.py:243-262 | 403 iff live is disabled, which is checked before the key. Otherwise 400 iff there is no usable first key, and else it returns that key with the configured voice. |
| `GeminiRouter.EnabledAgrees` | backend/open_webui/routers/gemini.py:252-257 | The user view is enabled exactly when the key endpoint hands out a key, and exactly when the live-model list is enabled. |

## Left out

- Database plumbing is not modelled: SQLAlchemy sessions, `commit` and `refresh`, and `get_db_context`. Neither are the blanket `except Exception` paths that return None, `[]`, False or 0. Failure is modelled only where the code decides it: an unknown id or a wrong owner.
- `uuid.uuid4()` and `time.time()` are parameters. That a fresh id is unused is a precondition of `CreateSession` and `AddTranscript`.
- Foreign keys are not enforced: `AddTranscript` stores a row even for an unknown session id and then changes no session. This matches a database that does not enforce the constraint.
- The database does not fix the order of rows with equal sort keys. The model breaks ties by store order, and no contract claims a particular tie order.
- SessionsByUserIdSpec: which sessions a page with an offset holds is not stated. No contract says the skipped sessions are updated no later than the returned ones. The database fixes no order among equal `updated_at` values, so such a page is fixed only up to ties. The first page is covered by `SessionsFirstPageSpec`.
- TranscriptsBySessionIdSpec: which rows a page with an offset holds is not stated. No contract says the skipped rows are no newer than the returned ones. The database fixes no order among equal timestamps, so such a page is fixed only up to ties. The first page is covered by `TranscriptsFirstPageSpec`.
- Every store operation is one atomic step. `increment_message_count` reads the row, adds one in Python and writes the row back; it does not issue `SET message_count = message_count + 1`. Two `add_transcript` calls running at once, from several workers or threads on one database, can therefore lose an increment. The model does not capture that; "exactly one more" holds for calls made one at a time.
- Rows with a NULL `message_count` are outside the model: `Store.Valid` requires every stored session to carry a count. Such rows cannot come from `create_session`, but the migration declares the column nullable, so another writer can insert them. For such a row the source behaves as follows, because `GeminiSessionModel` declares `message_count: int` and the validation error is swallowed. `get_session_by_id` returns None, the by-user listing returns `[]`, and the active-session query can return None. `update_session` commits its change and still returns None. `Incremented` keeps the source's `or 0` rule for a null count.
- `GetSessionsByUserId` and `GetActiveSessionByUserId` are ghost functions. A map has no order of its own, so the rows are enumerated by a non-compiled choice.
- `limit` and `offset` are natural numbers. Negative values, which SQL dialects treat differently, are not modelled.
- The network calls `verify_gemini_api_key` and `fetch_gemini_models` are replaced by their results: the provider's yes/no for the key and the fetched raw model list.
- Configuration persistence (`.save()`) and the FastAPI auth dependencies (`get_admin_user`, `get_verified_user`) are not modelled.
- `get_gemini_config` is not modelled. It returns the five settings unchanged and makes no decision.
- The `detail` strings of HTTP errors are left out; only status codes are modelled.
- Python's `str.title()` in `get_gemini_live_models` is a function parameter. Only the `-` to space replacement before it is modelled.
- JSON fields present with a null value are not distinguished from absent fields: a raw model's field is either present or None.
- backend/open_webui/migrations/versions/e4b8c2a91f23_add_gemini_live_tables.py creates and drops tables and indexes and has no behaviour to state.
- The client-side session continuity manager is not part of this model: connection state machine, timeout watchdog, reconnect policy and summarization guard. Its code is not among the modelled files, and its substance is timer and asynchronous coordination.
