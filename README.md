# AgriTech-AI context budgeting and conversation persistence, in Dafny

This project models the core of a retrieval-augmented agriculture chat
assistant that talks to its users over Telegram:

- **Context budgeting** (module `KnowledgeManager`, file `knowledge_manager.dfy`).
  `format_messages` renders chat history oldest-first under a token limit.
  `_reduce_tokens_below_limit` drops retrieved passages from the tail until the rest fit.
  `add_metadata_to_docs` merges metadata into documents in place.
  `chat` assembles the conversation text, the retrieval query and the help data.
  The model's token counter is the parameter `cost: string -> nat`.
  Search and completion are parameters that may fail.
- **A shared budget theory** (module `TokenBudget`). One reference function,
  `PrefixWithin`, describes the longest prefix of costs that fits a budget.
  It is a front-to-back scan against a shrinking budget. Both trimming loops
  are proved equal to it: the running-total loop of `format_messages` and the
  tail-dropping loop of `_reduce_tokens_below_limit`.
- **Persistence** (module `Database`).
  `FileDBManager` is a table of file records.
  - `add_file` checks that the filename is new.
  - `get_file_by_name` looks a record up by name.
  - `delete_file` deletes by name; `delete_all` clears the table.
  - `get_all` lists the table; `insert_many` bulk-inserts rows; `update_file` changes fields.

  `ChatManager` is an append-only chat log. Each new turn gets its namespace's
  highest sequence number plus one, or 0 for an empty namespace. Each table
  is a class holding its rows as a sequence in storage order.
- **Turn orchestration** (module `TelegramBot`). `AIResponder.generate_response`
  reads the user's history, calls the knowledge manager's `chat` (a parameter
  that may fail), and stores the turn only after `chat` succeeds.

Behaviour of the code that the model keeps:

- `_reduce_tokens_below_limit` **can return an empty list**. A first passage
  that alone costs more than the limit is dropped, so the result can be `[]`:
  one passage costing 500 under a limit of 100 gives `[]`, because the loop
  (knowledge_manager.py:153-157) decrements `num_docs` down to 0
  (`OverBudgetFirstPassageDropped`, `BudgetScenarios`).
- `delete_file` returns the number of rows it deleted, which is every row with
  that name. This is 0 or 1 only while filenames are unique
  (`UniqueCountAtMostOne`). `insert_many` does not check for duplicates, so it
  can break uniqueness (`InsertExistingBreaksUnique`).
- Converting a row for the caller runs `bytes(file.file_bytes)`
  (database.py:72). This raises `TypeError` when the row has no bytes. The
  model keeps that failure on every read path:
  - `add_file` has already inserted the row when it raises;
  - `get_file_by_name` raises;
  - `delete_file` raises before deleting anything;
  - `get_all` raises if any row has no bytes.
- The comparisons use a strict `>`, so a total equal to the limit is
  accepted. Trimming stops at the first turn that overflows. It is not a
  best fit: with costs `[100, 500, 10]` and a limit of 120, only the first
  turn is kept.

Error values are `Common.Result`:
- `ValueError` carries the two messages the stores raise.
- `TypeError` stands for the failed byte conversion.
- `OperationalError` stands for the SQL that SQLite refuses: an update that
  sets no column.
- Search, completion and `chat` are parameters, and a failure of theirs may
  carry any error value.

## Model

| member | source | states |
|---|---|---|
| `TokenBudget.PrefixWithin` | knowledge_manager.py:118-131 | The count it keeps is at most the length. A non-empty kept prefix costs at most the budget. When an item is left out, including the first item left out goes over the budget. |
| `TokenBudget.PrefixWithinUnique` | knowledge_manager.py:150-157 | Any cut point that fits, and whose next item overflows, equals `PrefixWithin`. This ties the tail-dropping loop and the running-total loop to the same prefix. |
| `TokenBudget.PrefixWithinFits` | knowledge_manager.py:152-157 | With a non-negative budget, the kept prefix's total is within the budget, even when the prefix is empty. |
| `TokenBudget.PrefixWithinAll` | knowledge_manager.py:152-153 | Everything is kept exactly when the whole sequence fits. |
| `TokenBudget.PrefixWithinIgnoresRest` | knowledge_manager.py:130-131 | After the first overflowing item, nothing else is examined. Appending more items, even ones that would fit, changes nothing. |
| `TokenBudget.PrefixWithinAntitone` | knowledge_manager.py:125-128 | Pointwise cheaper items never make fewer items fit. |
| `TokenBudget.PrefixWithinBudgetMonotone` | knowledge_manager.py:130-131 | A larger budget never makes fewer items fit. |
| `Common.Join` | knowledge_manager.py:140-145 | No parts give `""`. Otherwise the result starts with the first part, and its length is the parts' total plus one separator between each pair of neighbours. |
| `KnowledgeManager.RenderHistory` | knowledge_manager.py:140-145 | The text is empty exactly when no turn is kept. Otherwise it starts with the oldest kept turn's `"Human: "` line, in both modes. |
| `KnowledgeManager.FormatMessages` | knowledge_manager.py:107-145 | The result is the rendering of the longest fitting prefix of the history. Cost is the human line only, or human plus AI line. Human-only mode joins `"Human: h"` lines with blank lines. Normal mode joins `"Human: h\n\n<ai_name>: a"` blocks with blank lines. |
| `KnowledgeManager.KeptTurnsFitAndAreMaximal` | knowledge_manager.py:122-138 | With limit ≥ 0, the kept turns cost at most the limit; a total equal to the limit is accepted. For any limit, if a turn is left out, adding the first one left out exceeds the limit. |
| `KnowledgeManager.FormattedHistoryEmpty` | knowledge_manager.py:118-145 | An empty history, or one whose first turn alone is over the limit, formats to `""`. |
| `KnowledgeManager.HumanOnlyKeepsAtLeastAsMany` | knowledge_manager.py:122-128 | Human-only mode keeps at least as many turns as normal mode, because the AI cost it computes is never added. |
| `KnowledgeManager.HumanOnlyIgnoresReplies` | knowledge_manager.py:122-141 | In human-only mode the AI replies play no part. Histories with the same human messages give the same text. |
| `KnowledgeManager.LaterTurnsNeverExamined` | knowledge_manager.py:118-131 | Once a turn overflows, the turns after it are never examined and do not affect the text. |
| `KnowledgeManager.ReduceTokensBelowLimit` | knowledge_manager.py:147-157 | For limit ≥ 0, the result is the longest prefix of `docs` whose total cost is within the limit. The first passage dropped overflows. When everything fits, `docs` comes back unchanged. |
| `KnowledgeManager.OverBudgetFirstPassageDropped` | knowledge_manager.py:153-157 | A first passage that alone costs more than the limit is dropped, so the result is `[]`. |
| `KnowledgeManager.AddMetadataToDocs` | knowledge_manager.py:74-77 | Every document's metadata becomes its old map overridden by the given map; keys not in the given map are unchanged. The same list is returned. |
| `KnowledgeManager.HelpData` | knowledge_manager.py:181 | No passages give `""`. Otherwise the text starts with the first passage. Its length is the passages' total length plus one blank line between each pair of neighbours. |
| `KnowledgeManager.Chat` | knowledge_manager.py:167-181 | Both history renderings use the conversation limit. Search gets the human-only text, then `"\n"`, then `"Human: " + query`. A failed search is passed on. Otherwise the completion receives the surviving passages' text joined by blank lines, the full conversation text and the query. |
| `KnowledgeManager.BudgetScenarios` | knowledge_manager.py:118-157 | Concrete budgets: `[50,50,50]`/120 keeps 2, `[30,30,30,30]`/65 keeps 2, `[100,500,10]`/120 keeps 1, `[500]`/100 keeps 0, and `[10]`/0 keeps 0. |
| `Database.FileToModel` | database.py:66-74 | Conversion succeeds exactly when the row has bytes, and then returns every field unchanged. Otherwise it fails with `TypeError`. |
| `Database.FirstMatch` | database.py:89-91 | It returns `None` exactly when no row has the name. Otherwise it is the index of a row with that name, and no earlier row has it. |
| `Database.CountNamed` | database.py:114-115 | The count is at most the row count. It is zero exactly when no row has the name. |
| `Database.Without` | database.py:114-115 | The rows left are exactly the rows whose filename differs. The rows kept plus the rows deleted make up the whole table. |
| `Database.WithoutCounts` | database.py:114-115 | Each row whose filename differs is kept as often as it occurs; every row with the name is gone. |
| `Database.WithoutDistributes` | database.py:114-115 | Deleting from a concatenation deletes from each part and keeps the order of what remains. |
| `Database.ToModels` | database.py:122-124 | Conversion succeeds, returning the rows unchanged, exactly when every row has bytes. Otherwise it fails with `TypeError`. |
| `Database.AddKeepsUnique` | database.py:89-96 | Appending a record whose filename is new keeps filenames unique. |
| `Database.InsertExistingBreaksUnique` | database.py:126-129 | A bulk insert that includes a filename already present always breaks uniqueness. |
| `Database.UniqueCountAtMostOne` | database.py:107-115 | With unique filenames, deleting by name removes at most one row. |
| `Database.FirstMatchIsTheMatch` | database.py:99-105 | With unique filenames, the row found by name is the only row with that name. |
| `Database.AddThenFind` | database.py:86-105 | A record added under a new filename is the one found by that name afterwards. |
| `Database.DeleteThenFind` | database.py:107-115 | After deleting by name, no row of that name is left. |
| `Database.UpdateKeepsUnique` | database.py:131-134 | No update can rename a row, because `filename` always binds to the positional parameter. So every update keeps filenames unique. |
| `Database.WithoutKeepsUnique` | database.py:114-115 | Deleting rows keeps filenames unique. |
| `Database.FileDBManager.constructor` | database.py:37-64 | The table opens with the rows it already holds. |
| `Database.FileDBManager.AddFile` | database.py:86-97 | A duplicate filename raises `ValueError("File already exists")` and leaves the table unchanged. Otherwise exactly this record is appended and returned, or `TypeError` is raised after the insert when it has no bytes. Uniqueness is preserved. |
| `Database.FileDBManager.GetFileByName` | database.py:99-105 | No matching row gives `None`, not an error. Otherwise it returns the first matching row, or fails with `TypeError` if that row has no bytes. |
| `Database.FileDBManager.DeleteFile` | database.py:107-115 | An absent name raises `ValueError("Invalid collection/file")` and changes nothing. A bytes-less first match raises `TypeError` and changes nothing. Otherwise it deletes every row with that name, keeps the others, and returns how many it deleted. |
| `Database.FileDBManager.DeleteAll` | database.py:117-120 | It returns the prior row count and leaves the table empty. |
| `Database.FileDBManager.GetAll` | database.py:122-124 | It returns all rows in table order, or `TypeError` if any row has no bytes. |
| `Database.FileDBManager.InsertMany` | database.py:126-129 | The given rows are appended in order, with no duplicate check. |
| `Database.FileDBManager.UpdateFile` | database.py:131-134 | Only rows with that filename change, each by the given field changes. It returns the number of matches, which is 0 when there are none. An update that sets no column fails with `OperationalError` and changes nothing. Unique filenames stay unique. |
| `Database.TestFileManager` | database.py:175-204 | In the repository's own scenario, the file is added and read back by name, one row is deleted, the name is then absent and the table is empty. |
| `Database.InNamespace` | database.py:168-169 | The rows selected are exactly the rows of that namespace. |
| `Database.InNamespaceCounts` | database.py:168-169 | Each row of the namespace is selected as often as it occurs; no row of another namespace is. |
| `Database.InNamespaceDistributes` | database.py:168-169 | Selecting from a concatenation selects from each part and keeps storage order. |
| `Database.NextSequenceNumber` | database.py:155-161 | It is 0 for a namespace with no rows. It is above every number in the namespace, and one past the highest one there. |
| `Database.Append` | database.py:155-164 | The stored rows are untouched. One row is added at the end, with the given namespace and messages. Its number is above every number already in its namespace. |
| `Database.LastSequenceNumber` | database.py:155-156 | It is `None` exactly when the namespace has no rows. Otherwise it is a sequence number of the namespace, and no row of the namespace has a higher one. |
| `Database.NamespaceNumbering` | database.py:166-169 | In a well-numbered log, the j-th row of a namespace in storage order has number j. Storage order within a namespace is therefore ascending sequence order. |
| `Database.NextIsCount` | database.py:155-161 | In a well-numbered log, the next number (max + 1, or 0 when empty) equals the namespace's row count. |
| `Database.AppendKeepsNumbering` | database.py:153-164 | An append keeps the log well numbered. |
| `Database.AppendHistory` | database.py:153-169 | An append adds exactly `(human, ai)` to the end of its namespace's history. Every other namespace's history is unchanged. |
| `Database.AppendAllKeepsNumbering` | database.py:153-164 | Any series of appends keeps the log well numbered. |
| `Database.AppendAllHistory` | database.py:153-169 | A series of appends adds its turns, in order, to the end of the namespace's history. |
| `Database.AppendsNumberFromZero` | database.py:155-164 | In a well-numbered log, N appends to a namespace with no rows are numbered exactly 0..N-1, and its history is those turns in order, whatever other namespaces hold. |
| `Database.ChatManager.constructor` | database.py:137-151 | The log opens with rows that earlier appends left, well numbered. |
| `Database.ChatManager.AddMessage` | database.py:153-164 | It appends exactly one row with the namespace's highest number plus one, or 0 for an empty namespace. `ai_message` comes before `human_message` in its parameters. The numbering invariant is preserved. |
| `Database.ChatManager.RetrieveAllMessages` | database.py:166-169 | It returns the namespace's `(human, ai)` pairs, where the j-th pair is the stored message numbered j. An unknown namespace gives `[]`. |
| `Database.TwoNamespacesStayApart` | database.py:153-169 | After `("hi", "hello")` is appended for "u1" and then for "u2", each namespace holds exactly one pair. |
| `TelegramBot.AIResponder.constructor` | telegram_bot.py:31-33 | The responder holds the given chat log. |
| `TelegramBot.AIResponder.GenerateResponse` | telegram_bot.py:35-43 | `chat` receives the user's history from before the turn. On success, exactly one row (human = text, ai = reply) is appended to the user's namespace. On failure the log is unchanged. The result is chat's outcome unchanged, and other users' histories are untouched. |

## Left out

- File loading, splitting, ingest into the vector store, collection and id deletion, and similarity search (knowledge_manager.py:40-105). These are calls into external services. Search is a parameter of `Chat`, and its `k` and collection name are folded into it.
- The prompt template and the chain call (knowledge_manager.py:182-216). The completion is the parameter `complete`, which receives the three template inputs.
- Token counting. `llm.get_num_tokens` is the uninterpreted parameter `cost`.
- `KnowledgeManager.ReduceTokensBelowLimit`: requires `docs_limit >= 0`. With a negative limit the loop drives `num_docs` below 0, and Python's negative indexing then reads from the end or raises. The default limit is 3000.
- `KnowledgeManager.Chat`: constructing the language model from its class and keyword arguments is not modelled, and the async scheduling of `chat` is not modelled either.
- The connection state in a `ContextVar`, connecting, table creation, connection contexts, SQL and the JSON and blob field encodings (database.py:10-23, 62-63, 149-150). Each table is an in-memory sequence of rows, and a store opens with the rows it already holds.
- `pydantic_to_file` (database.py:76-84) copies every field. Rows and records share one datatype, so it is the identity. `file_to_pydantic` (database.py:66-74) is `Database.FileToModel`, including its `TypeError` for missing bytes. Pydantic's own field validation is not modelled.
- `Database.FileDBManager.UpdateFile`: takes a typed partial update instead of arbitrary keyword arguments, with one optional value per column other than `filename`. A `filename=` keyword binds to the positional parameter, and Python's `TypeError` for such a call is not modelled. Unknown column names are not modelled either. An update that sets no column becomes `UPDATE ... SET WHERE ...`, which SQLite rejects. The model returns `OperationalError` with SQLite's `near "WHERE": syntax error` for it and leaves the table unchanged. Another database would raise a different error class.
- `Database.FileDBManager.GetFileByName`: the query has no `ORDER BY`. "First" is taken as first in storage order.
- Concurrency. The read-max-then-insert of `add_message` and the check-then-insert of `add_file` are modelled for a single writer only. No storage-level unique constraint exists, so none is modelled.
- Storage faults. Apart from the refused empty update, exceptions raised by the database itself (a lost connection, a failed write) are not modelled; neither store fails except in the ways listed above.
- `Database.ChatManager.RetrieveAllMessages`: returns the namespace's rows in storage order. The numbering invariant `Valid()` proves that order is ascending sequence order, so `order_by(sequence_number)` is modelled only for logs whose rows were numbered by `add_message`.
- The Telegram adapter (handlers, voice download and temporary files, polling), the Whisper transcriber and the program's entry point (telegram_bot.py:16-28, 45-150). These are UI, network and foreign calls. The outer handler that turns a failure into an apology is the caller that receives `GenerateResponse`'s `Failure`.
