# Chat-history store of the Ollama chat client, in Dafny

The repository is a single-page chat client for a local Ollama server. The
user picks one or more models and sends a prompt. The client stores each
exchange in a small SQLite database and shows the session's history with a
search box. This project models the part of `ollama_client.py` that has
logic of its own:

- **`DatabaseManager`** (`store.dfy`, module `Store`): a class over the
  database, held in memory. Its fields are the `session` and `conversations`
  tables (rows in insertion order), the AUTOINCREMENT counter of each table,
  the column list of `conversations`, and a ghost clock.
  - Each method is the SQL statement it runs.
  - `CURRENT_TIMESTAMP` is an explicit argument `now`. The caller must not
    let it go back.
  - The constructor takes the contents of an existing database file. That
    file may be empty, or may come from a version without `response_time`.
    The constructor then runs `initialize_database`.
- **Row types and queries** (`tables.dfy`, module `Tables`): the rows, the
  schema migration, the WHERE/ORDER BY queries, and the shape of a
  well-formed database. The ordering facts are:
  - session names are unique;
  - ids grow in rowid order and never pass the counter;
  - timestamps never decrease in rowid order and never pass the clock.
- **Chat rules** (`chat.dfy`, module `Chat`):
  - the case-insensitive history search;
  - the history panel (load, then filter);
  - the ```` ```python ```` fence put around replies that contain `def ` or
    `class `;
  - the save loop of `send_message`;
  - `prepare_comparison_data`.
- **Helpers**: `text.dfy` (ASCII lower-casing; the substring test as a scan,
  proved equal to "occurs at some position"), `seqs.dfy` (an order-keeping
  filter, reversal, pairwise order), `option.dfy` (`Option`).

Three things the code does that its comments and schema do not suggest;
the model follows the code:
- `send_message` saves the replies of its own round of calls. It then calls
  `generate_comparison_report`, which asks every model a second time, and
  the report is built from those second replies. So the report and the
  saved rows come from different calls.
- `CREATE TABLE conversations` does not declare `response_time`, despite the
  comment above it. The column always comes from the `ALTER TABLE`, also on
  a new database. `Tables.MigratedColumns` reflects this.
- The `FOREIGN KEY` on `conversations.session_id` is declared but not
  enforced, because SQLite leaves foreign keys off by default. So
  `SaveConversation` accepts any session id.

## Model

| member | source | states |
|---|---|---|
| `Tables.MigratedColumns` | ollama_client.py:70-85 | after the migration the column list contains `response_time`; existing columns are kept in place, at most one column is added, none is duplicated, and a new table gets the six declared columns plus `response_time` |
| `Tables.MigrationIdempotent` | ollama_client.py:82-85 | migrating an already migrated column list changes nothing |
| `Store.DatabaseManager.constructor` | ollama_client.py:54-56 | opening a file this program could have written (a missing table has no rows and a zero counter, so its first id is 1; an existing `conversations` table starts with the six declared columns) and initializing it keeps every row and counter and leaves the schema complete |
| `Store.DatabaseManager.InitializeDatabase` | ollama_client.py:58-87 | creates missing tables and adds `response_time` only when missing; no row changes; on a store that is already initialized, a second run leaves the column list unchanged |
| `Store.DatabaseManager.SaveConversation` | ollama_client.py:89-97 | appends exactly one row with the next id and the given session, model, input, response, time and timestamp; sessions, the other rows and the schema are unchanged |
| `Store.DatabaseManager.CreateNewSession` | ollama_client.py:99-113 | a duplicate name returns None and changes nothing; a fresh name gets an id that no existing session has, and only that row is appended |
| `Store.DatabaseManager.LoadSessions` | ollama_client.py:115-121 | every session's `(id, name)` exactly once (a permutation), newest first by creation time |
| `Store.DatabaseManager.LoadConversationHistory` | ollama_client.py:123-134 | a permutation of exactly the rows of the session, newest first |
| `Store.DatabaseManager.DeleteSession` | ollama_client.py:136-142 | afterwards no session row with that id and no conversation row for it remain; every other row stays, in order; the counters do not go back, so ids are never reused |
| `Tables.ConversationsOf` | ollama_client.py:129 | `WHERE session_id = s` keeps a row exactly when it belongs to `s` |
| `Tables.ConversationsExcept` | ollama_client.py:139 | the conversation delete keeps a row exactly when it belongs to another session |
| `Tables.SessionsExcept` | ollama_client.py:140 | the session delete keeps a row exactly when it has another id |
| `Tables.DeletePartition` | ollama_client.py:139 | the deleted rows and the kept rows together make up the whole table (as multisets) |
| `Tables.DeleteKeepsOtherHistories` | ollama_client.py:136-142 | after deleting `s`, `s` has no rows, and every other session's rows are the same rows in the same order |
| `Tables.NewestFirst` | ollama_client.py:118 | `ORDER BY timestamp DESC` over the session rows gives a permutation of the rows with non-increasing timestamps |
| `Tables.SessionList` | ollama_client.py:118 | the session listing is a permutation of the `(id, name)` pairs, pair `i` being that of the `i`-th row of `NewestFirst` |
| `Tables.History` | ollama_client.py:126-131 | the history query is a permutation of the session's rows with non-increasing timestamps |
| `Tables.HistoryOfFreshSession` | ollama_client.py:123-134 | after N rows are added to a session that had none, its history has N rows |
| `Text.ContainsIff` | ollama_client.py:308 | the substring scan holds exactly when the needle occurs at some position, in both directions |
| `Chat.SearchHistory` | ollama_client.py:306-309 | keeps only rows that match the query, and keeps every row that does |
| `Chat.MatchesIff` | ollama_client.py:308 | a row matches exactly when the lower-cased query occurs in the lower-cased input or response |
| `Chat.SearchKeepsOrder` | ollama_client.py:306-309 | the filter works piecewise over concatenation, so kept rows stay in their original order |
| `Chat.EmptyQueryKeepsAll` | ollama_client.py:306-309 | an empty query keeps every row |
| `Chat.SearchIgnoresQueryCase` | ollama_client.py:308 | lower-casing the query first gives the same result |
| `Chat.SearchIdempotent` | ollama_client.py:306-309 | filtering the filtered rows again with the same query changes nothing |
| `Chat.ShowHistory` | ollama_client.py:303-309 | with a current session, shows exactly that session's matching rows, each as often as it occurs (a permutation of the filtered history), newest first; without one, shows nothing |
| `Chat.Fenced` | ollama_client.py:289-290 | a reply containing `def ` or `class ` is wrapped in a Python fence; any other reply is left as it is; the original text always occurs in the result |
| `Chat.FenceRoundTrip` | ollama_client.py:289-290 | removing the fence from a wrapped reply gives back the reply |
| `Chat.Persisted` | ollama_client.py:287-291 | an empty response is never saved, and no more rows are saved than replies |
| `Chat.PersistedAppend` | ollama_client.py:287-291 | saving works piecewise over the selection, so rows follow selection order |
| `Chat.PersistedIsAnsweredFenced` | ollama_client.py:287-291 | the saved replies are exactly the answered replies, in order, each fenced |
| `Chat.AllAnsweredAllSaved` | ollama_client.py:282-291 | when every model answered, one row per model is saved, in selection order |
| `Chat.SaveReply` | ollama_client.py:288-291 | an answered reply is saved as one row with the next id and its response fenced when it is code; an empty reply saves nothing |
| `Chat.SaveReplies` | ollama_client.py:287-291 | the loop appends exactly the rows of the answered replies, fenced, in selection order, with consecutive ids; the id counter advances by the number of saved rows and the clock stays at or before `now`; sessions and schema are unchanged |
| `Chat.SendMessage` | ollama_client.py:278-295 | saves only when there is a message and a current session, and then runs the save loop (the id counter advances by the number of saved rows, the clock stays at or before `now`); otherwise rows, id counter and clock are unchanged |
| `Chat.HistoryAfterSend` | ollama_client.py:287-291 | after a send into a session with no rows, its history has one row per model that answered |
| `Chat.PrepareComparisonData` | ollama_client.py:145-155 | one table row per reply, in input order, with the reply's model, response (empty if the call failed) and formatted time |

## Left out

- `OllamaAPIClient` (ollama_client.py:13-50): HTTP requests, JSON decoding and wall-clock timing. Their results reach the model as `Chat.Reply` values, one per selected model.
- `generate_comparison_report` (ollama_client.py:258-275): its own round of model calls (network I/O) and the download button. The table it builds is `Chat.PrepareComparisonData`.
- `create_csv_report` and the pandas DataFrame (ollama_client.py:157-160): a foreign library. The table is kept as three columns.
- The `:.2f` formatting of response times is a float concern. It is the abstract `format` argument of `PrepareComparisonData`. Response times are `real`.
- The Streamlit page: sidebar, session radio list, `add_new_session`, the confirmation dialog, the toast, HTML rendering and CSS (ollama_client.py:163-340). The `st.warning` shown on a duplicate session name is left out too. All of this is presentation.
- Timestamp reformatting with `strptime`/`strftime` (ollama_client.py:312). It is presentation only, and timestamps are whole seconds.
- SQLite itself: connections, cursors, commits, `PRAGMA` output, and the `sqlite_sequence` table. The tables are values in the class. A method's effect is atomic, like the single commit of each method.
- `Text.Lower`: only ASCII letters are lower-cased, not full Unicode case folding.
- `Store.DatabaseManager.LoadSessions`: SQL does not fix the order of rows with equal timestamps. The model returns them in reverse insertion order. The contract promises only what SQL promises: a permutation, sorted by non-increasing timestamp.
- `Store.DatabaseManager.LoadConversationHistory`: the same tie-order choice as `LoadSessions`, with the same contract.
- `Chat.SendMessage`: all saves of one send get the same timestamp `now`. In the program each insert reads the clock separately, possibly a second later.
- `Chat.SendMessage`: if `selected_model` was never set because no model was found, the program fails with a `NameError`. The model does not cover that case; the replies are always an input.
