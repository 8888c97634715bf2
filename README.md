# datasette-showboat in Dafny

A model of the core of the datasette-showboat plugin: a remote client streams
commands (`init`, `note`, `exec`, `image`, `pop`) for a "showboat" document
to a receive endpoint, which renders each content command to markdown once,
at write time, and stores it as a row of the `showboat_chunks` table; readers
poll a JSON listing of a document's rows after a cursor id, and an index page
summarises every document.

The model has one module per component of `datasette_showboat/__init__.py`:

- `Fence` (fence.dfy) — `make_fence`: the imperative scan `MakeFence`, proved
  equal to the pure `FenceFor` built on `LongestRun`, the longest run of
  backticks; lemmas show the fence never occurs in the content, is the
  shortest run of at least three backticks that does not, and has exactly
  three backticks iff the content has no run of three.
- `Markdown` (markdown.dfy) — the `init`, `exec` and `image` templates, and a
  reader for fenced blocks (`ReadBlock`, `ReadExec`, `ReadImage`,
  `ReadInit`) as their inverse: the round-trip lemmas show that each rendered
  chunk gives back the fields it was made from, which holds because the fence
  never occurs in the fenced text.
- `Base64` (base64.dfy) — the encoding of section 4 of RFC 4648 that
  `base64.b64encode` applies to stored images, with its decoding and the
  round trip `Decode(Encode(b)) == Some(b)`.
- `Store` (store.dfy) — a row of `showboat_chunks`, the table as a sequence of
  rows in id order, a document's rows (`WHERE showboat_id = ?`) and the `pop`
  DELETE of a document's newest row.
- `Receiver` (receiver.dfy) — the request gates and dispatch of
  `showboat_receive` as the pure `Decide`, and the class `ChunkTable` (rows,
  the AUTOINCREMENT counter `lastId`, and a ghost set of every id ever
  issued) whose `Receive` method runs the handler's `if`/`elif` chain,
  calling `MakeFence`, and is proved to do what `Decide` says.
- `Reader` (reader.dfy) — `showboat_document_json`: the listing of one
  document's rows past the cursor, each row shaped as a JSON chunk.
- `DocIndex` (docindex.dfy) — `showboat_index`: GROUP BY `showboat_id` with
  COUNT, MIN and MAX of `created_at`, ordered by the MAX descending.

Inputs the handler takes from its environment are parameters: the configured
token (`Option<string>`), the request (method, `token` query parameter, text
form fields as a map, bytes of an `image` file part), and the `created_at`
timestamp.

The model follows the code's behaviour throughout: `pop` deletes the document's newest row and answers 200
(it is not an appended marker); markdown is rendered once and stored in the
`markdown` column, not recomputed on read; the JSON keys are `id`,
`showboat_id`, `created_at`, `markdown` and optional `image`; the `image`
command fences the `input` field (not a file name); and the index counts
every row left in the table, with no filter for `pop`.

## Model

| member | source | states |
|---|---|---|
| `Fence.TrailingRun` | datasette_showboat/__init__.py:23-29 | `current_run` after a prefix: a run of backticks ending the prefix, no longer than it |
| `Fence.LongestRun` | datasette_showboat/__init__.py:22-29 | `max_run` after a prefix: at least the current run and at most the prefix length |
| `Fence.FenceFor` | datasette_showboat/__init__.py:30 | the fence is all backticks and has length `max(3, longest run + 1)` |
| `Fence.MakeFence` | datasette_showboat/__init__.py:20-30 | the loop over the content returns exactly `FenceFor(content)` |
| `Fence.TrailingRunBounds` | datasette_showboat/__init__.py:24-27 | every run that ends the text is counted by `current_run` |
| `Fence.RunBound` | datasette_showboat/__init__.py:24-29 | every run of backticks anywhere in the content is at most `max_run` long |
| `Fence.LongestRunAttained` | datasette_showboat/__init__.py:24-29 | `max_run` is the length of an actual run in the content |
| `Fence.FenceNotInContent` | datasette_showboat/__init__.py:20-30 | the fence occurs nowhere inside the content |
| `Fence.FenceIsShortest` | datasette_showboat/__init__.py:30 | every shorter run of at least three backticks does occur in the content |
| `Fence.FenceIsThreeIff` | tests/test_showboat.py:89-111 | the fence is three backticks iff the content has no run of three |
| `Markdown.InitMarkdown` | datasette_showboat/__init__.py:119-124 | the `init` rendering `"# " + title`; `InitRoundTrip` proves it reads back into the title |
| `Markdown.ExecMarkdown` | datasette_showboat/__init__.py:133-139 | the `exec` rendering: two blocks, each fenced by `make_fence` of its own content; `ExecRoundTrip` proves it reads back, `ExecLanguageNewlineCollides` that it cannot when the language holds a newline |
| `Markdown.ImageMarkdown` | datasette_showboat/__init__.py:145-153 | the `image` rendering; `ImageRoundTrip` proves it reads back into input and alt |
| `Markdown.ReadCodeBlock` | datasette_showboat/__init__.py:139 | a block `fence + info + "\n" + body + "\n" + fence` whose fence is not in the body reads back as info and body, whatever follows |
| `Markdown.InitRoundTrip` | datasette_showboat/__init__.py:119-124 | the `init` markdown `"# " + title` gives the title back |
| `Markdown.ExecRoundTrip` | datasette_showboat/__init__.py:133-139 | the two independently fenced blocks of `exec` give back language, input and output |
| `Markdown.ExecLanguageNewlineCollides` | datasette_showboat/__init__.py:139 | two different `exec` requests, with languages `"x\ny"` and `"x"`, store the same markdown, so a language with a newline cannot be read back |
| `Markdown.ImageRoundTrip` | datasette_showboat/__init__.py:145-153 | the `bash {image}` block plus the `![alt]()` line present iff alt is non-empty gives back input and alt |
| `Base64.Encode` | datasette_showboat/__init__.py:205 | the encoding has four characters per started group of three bytes |
| `Base64.DecodeEncode` | datasette_showboat/__init__.py:205 | decoding the encoded image gives back the stored bytes |
| `Store.DocRows` | datasette_showboat/__init__.py:192 | a document's rows in table order, no more than the table holds; `DocRowsMembers` states exactly which |
| `Store.DocRowsMembers` | datasette_showboat/__init__.py:192 | a document's rows are exactly the table rows with its `showboat_id` |
| `Store.NewestIndex` | datasette_showboat/__init__.py:162-167 | the selected row belongs to the document and no later row does; none exactly when the document has no rows |
| `Store.WithoutNewest` | datasette_showboat/__init__.py:159-170 | the table after the `pop` DELETE; `PopTakesLargestId`, `PopDropsLastOfDocument` and `PopKeepsIdOrder` state what it removes and keeps |
| `Store.PopTakesLargestId` | datasette_showboat/__init__.py:159-170 | `pop` removes exactly the document's row with the largest id, and is a no-op on a document without rows |
| `Store.PopDropsLastOfDocument` | datasette_showboat/__init__.py:159-170 | after `pop` the document's rows are its old rows minus the last, and every other document's rows are unchanged |
| `Store.PopKeepsIdOrder` | datasette_showboat/__init__.py:159-170 | the table stays in id order and gains no row |
| `Receiver.Decide` | datasette_showboat/__init__.py:97-176 | 405 iff not POST; 403 iff POST with a configured non-empty token not matched; 400 iff past those gates with `uuid` empty or an unknown command; `pop` iff gates passed, `uuid` set and command `pop`; only `image` stores the upload |
| `Receiver.ResponseTo` | datasette_showboat/__init__.py:171-176 | `{"ok": true}` exactly for accepted requests, 201 after an insert, 200 after a pop |
| `Receiver.UnknownCommandRefused` | datasette_showboat/__init__.py:173-174 | an unknown command gets 400 with `"Unknown command: " + command` |
| `Receiver.StoredMarkdownReadsBack` | datasette_showboat/__init__.py:119-157 | the stored markdown of `init` (title defaulting to `Untitled`), `note` and `image` reads back into the request fields, and that of `exec` does when the language is one line not starting with a backtick; the upload is stored unchanged for `image` only |
| `Receiver.ChunkTable.constructor` | datasette_showboat/__init__.py:37-47 | the table starts empty with the AUTOINCREMENT counter at zero |
| `Receiver.ChunkTable.Insert` | datasette_showboat/__init__.py:40 | appends one row whose id is one past the counter and above every id ever issued; existing rows unchanged |
| `Receiver.ChunkTable.Pop` | datasette_showboat/__init__.py:159-170 | the rows become `WithoutNewest` of the old rows; the counter is untouched, so popped ids are never reused |
| `Receiver.ChunkTable.Receive` | datasette_showboat/__init__.py:97-176 | answers as `Decide` says; a rejection leaves the table unchanged, a content command appends exactly one row with a fresh id, `pop` deletes the newest row of the document |
| `Reader.ChunkOf` | datasette_showboat/__init__.py:198-205 | a chunk keeps the row's id, document, `created_at` and markdown; `image` is present iff the blob is non-null and non-empty, and decodes to the blob |
| `Reader.After` | datasette_showboat/__init__.py:185-189 | the rows the cursor keeps, no more than it was given; `AfterMembers` states exactly which |
| `Reader.AfterMembers` | datasette_showboat/__init__.py:185-189 | the cursor keeps exactly the rows with id greater than `after`, or all rows without a cursor |
| `Reader.Listing` | datasette_showboat/__init__.py:183-206 | every listed chunk belongs to the requested document and lies past the cursor |
| `Reader.ListingContents` | datasette_showboat/__init__.py:183-206 | the listing holds the chunk of every row of the document past the cursor and nothing else |
| `Reader.ListingAscending` | datasette_showboat/__init__.py:187 | listing ids strictly increase (`ORDER BY id`) |
| `Reader.PollingReturnsTheRest` | tests/test_showboat.py:264-282 | with the id of the k-th chunk as cursor the listing is exactly the chunks after the k-th |
| `Reader.AppendThenList` | tests/test_showboat.py:242-260 | a row appended to the table is listed last, after the document's earlier chunks |
| `DocIndex.MinText` | datasette_showboat/__init__.py:233 | `MIN(created_at)` is one of the values and below all of them |
| `DocIndex.MaxText` | datasette_showboat/__init__.py:234 | `MAX(created_at)` is one of the values and above all of them |
| `DocIndex.DocIds` | datasette_showboat/__init__.py:236 | the groups: distinct ids, every row's id among them, each with rows |
| `DocIndex.Summarize` | datasette_showboat/__init__.py:230-234 | `chunk_count` is the document's row count, `first_chunk` and `last_chunk` its least and greatest `created_at`, with `first_chunk <= last_chunk` |
| `DocIndex.SortDescSpec` | datasette_showboat/__init__.py:237 | the ordering is a permutation, descending by `last_chunk`, keeping documents distinct |
| `DocIndex.Summaries` | datasette_showboat/__init__.py:230-236 | one aggregate per document (GROUP BY), documents distinct, each entry `Summarize` of its document |
| `DocIndex.Index` | datasette_showboat/__init__.py:228-250 | the `documents` list: a permutation of the per-document aggregates, ordered by `last_chunk` non-increasing, no document twice |
| `DocIndex.IndexEntriesAreAggregates` | datasette_showboat/__init__.py:228-250 | every entry is its document's aggregate |
| `DocIndex.IndexCoversEveryDocument` | datasette_showboat/__init__.py:236 | every document with a row has an entry |
| `DocIndex.IndexOmitsEmptiedDocuments` | datasette_showboat/__init__.py:228-239 | a document whose rows were all popped has no entry |

## Left out

- Configuration lookups (`get_db`, `get_token`): database selection is not modelled; the token comes in as a parameter.
- The clock (`datetime.now(...).isoformat()`): `created_at` is a parameter.
- Form and multipart parsing: the form is a map of text fields plus the bytes of an `image` file part; a file part under any other field name, and an `image` field sent as text (which the source stores as NULL), are represented only as "no upload".
- `int(after)` on non-numeric input raises a server error in the source; the cursor is an optional integer, with absent and empty `after` both meaning no cursor.
- SQLite itself, `async`/`await` and the serialisation of `execute_write`: the table is an in-memory sequence updated one request at a time, and rows are kept in id order, which is the order `ORDER BY id` returns.
- The ordering of index entries with equal `last_chunk` is not fixed by the SQL; the model picks one, and its lemmas state only what holds for every order SQLite may return.
- Base64 decoding happens in the reader's browser, not in the plugin; `Base64.Decode` is the encoder's partner only. Like `b64decode` it ignores the unused low bits of a padded last group (`DecodeLeniency`: `"AB=="` decodes to the bytes of `"AA=="`), but it refuses characters outside the alphabet, which `b64decode` discards by default.
- `ExecRoundTrip`: requires the language to be one line that does not start with a backtick; the source accepts any language, and with one that starts with a backtick or contains a newline the stored `exec` markdown does not read back as the fields it came from (`ExecLanguageNewlineCollides` proves two requests that store the same text).
- `StoredMarkdownReadsBack`: states the `exec` read-back only under the same condition on the language, for the same reason.
- Framework glue with no behaviour of its own: the `startup` DDL beyond the table and its AUTOINCREMENT ids, the index on `showboat_id`, `skip_csrf`, `register_actions`, `permission_resources_sql`, `register_routes` and the `ensure_permission` checks of the read views.
- `showboat_document`, the HTML templates and the client-side polling script are templating and UI; the templates and script are not part of this model.
