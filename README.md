# Cursor chat exporter: verified model of the core

The exporter reads Cursor's `composerData` records, normalises each record
into a chat session and writes HTML pages from the sessions. This project
models its deterministic core in Dafny and proves properties of that model.
It follows the Chinese-language script `for-chinese/chat_export.py`.

- `Json.dfy`: decoded JSON values (`Value`) and the few Python semantics the
  script relies on. These are truthiness, `dict.get` with and without a
  default, `a or b`, and `==` between a value and an integer literal, where
  `True == 1`.
- `Text.dfy`: the string operations. These are `split` on one character,
  `join`, `strip` (with Python's whitespace set), `startswith` and decimal
  rendering.
- `CodeBlocks.dfy`: `process_code_blocks`. The three replaces are proved
  equal to a per-character escaping. That escaping is proved invertible,
  free of `<` and `>`, and neutral for fence detection. The line loop is
  `ScanLines`, a method with a loop invariant. It is proved against a
  declarative reference: the lines are cut at fence lines into segments, and
  odd-numbered segments are code blocks.
- `Normalize.dfy`: the per-record body of `read_chat_history`:
  - the role and content `or`-chains;
  - attachment evidence;
  - the placeholder rule;
  - the keep rule;
  - the `user_questions` / `chat_count` counters driven by the
    `current_role` cursor (method `CountConversation`);
  - the per-record outcome (`NormalizeRecord`);
  - the loop over records (`ReadChatHistory`).
- `Render.dfy`: the rest of the output:
  - `create_html_content` (methods `CreateHtmlContent`, `RenderSection`
    and `RenderMessages`, over exact copies of its triple-quoted templates);
  - the body assembled by `export_summary` (`ExportSummaryContent`);
  - the body assembled by `export_current_summary`
    (`CurrentSummaryContent`);
  - the `safe_title` sanitiser.

Each loop of the script is a method whose postcondition equals a
specification function. The properties of those functions are proved as
lemmas.

Two behaviours come from calls the model cannot see, so they are
parameters:
- `str(msg)`, the text searched for attachment marker words, is
  `show: Value -> string`. The same function prints a title that is a list
  or a dictionary.
- `str.isalnum` is `isAlnum: char -> bool`.

## Model

| member | source | states |
|---|---|---|
| Json.Or | for-chinese/chat_export.py:340-346 | `a or b` is `a` when `a` is truthy and `b` otherwise. It is truthy exactly when one of the operands is. |
| Text.StripEmptyIffBlank | for-chinese/chat_export.py:366 | `s.strip() == ''` holds exactly when every character of `s` is whitespace. |
| Text.JoinSplit | for-chinese/chat_export.py:247 | Splitting on a character and joining with it again gives the text back, so the split loses nothing. |
| Text.SplitChars | for-chinese/chat_export.py:247 | Every character of every line of the split comes from the split text. |
| CodeBlocks.EscapeTextIsEscape | for-chinese/chat_export.py:245 | The three chained replaces, `&` first, equal escaping each character by its own entity. |
| CodeBlocks.UnescapeEscape | for-chinese/chat_export.py:245 | The escaping is invertible: reading the entities back gives the original text. |
| CodeBlocks.EscapeChars | for-chinese/chat_export.py:245 | The escaped text holds no `<` or `>`. It holds a newline exactly when the input does. |
| CodeBlocks.FenceEscape | for-chinese/chat_export.py:245-253 | An escaped line is a fence line (stripped, starts with three backticks) exactly when the original line is. |
| CodeBlocks.ProcessCodeBlocks | for-chinese/chat_export.py:241-268 | Empty input gives `""`. Otherwise the result is the escaped text's segments rendered and joined with `<br>`. |
| CodeBlocks.RenderLines | for-chinese/chat_export.py:247-268 | After the loop, an open block is flushed only if it collected a line. The result equals the reference rendering of all pieces. |
| CodeBlocks.ScanLines | for-chinese/chat_export.py:248-263 | The loop leaves exactly the state of the two-state line machine after every line. |
| CodeBlocks.RunMatchesSegments | for-chinese/chat_export.py:252-263 | After all the lines, the machine matches the segments of the input. It is inside a block exactly when an odd number of fences was read. Its collected code is the open segment's lines, each ending in `"\n"`. Its output is the rendering of the finished segments. |
| CodeBlocks.FinalOpen | for-chinese/chat_export.py:265-266 | A block still open at the end with at least one line is emitted as one more `<pre><code>` block. |
| CodeBlocks.FinalRest | for-chinese/chat_export.py:265-266 | Otherwise nothing more is emitted at the end. |
| CodeBlocks.PiecesKeepNonFenceLines | for-chinese/chat_export.py:252-263 | Fence lines are dropped whole. Every other line reaches the output once, in order, as text or inside a code block. |
| CodeBlocks.CodeBlockCount | for-chinese/chat_export.py:252-266 | k fence lines make k + 1 segments. The number of code blocks is k / 2 closed pairs, plus 1 exactly when an odd fence opened a block that has lines. |
| CodeBlocks.NoRawBrackets | for-chinese/chat_export.py:244-268 | No line of the input reaches the output with a raw `<` or `>`. |
| CodeBlocks.SingleLineIsEscaped | for-chinese/chat_export.py:241-268 | A non-empty single line that is not a fence comes out exactly as its escaped text. |
| CodeBlocks.FenceOnlyMessage | for-chinese/chat_export.py:247-266 | A one-line message that is a fence line comes out as `""`. The fence is dropped, and the block it opens has no line, so nothing is flushed. |
| Normalize.ResolveRole | for-chinese/chat_export.py:340-342 | The role is the first truthy of `role` and `type`. Otherwise it is `'user'` if `isUser` is truthy, else `'assistant'`. It is always truthy. |
| Normalize.ResolveContent | for-chinese/chat_export.py:344-346 | The content is the first truthy of `content` and `text`. Otherwise it is `message` when present, else `''`. |
| Normalize.HasAttachment | for-chinese/chat_export.py:349-361 | Attachment evidence is a truthy value under one of six attachment keys, or one of five marker words in the printed form of the message. |
| Normalize.HasAttachmentChain | for-chinese/chat_export.py:349-361 | The evidence is exactly the source's `or`-chain of the eleven tests, key by key and word by word. |
| Normalize.NormalizeMessage | for-chinese/chat_export.py:349-375 | A truthy non-string content raises. Otherwise blank content with attachment evidence and a user role becomes the placeholder. A non-empty string is kept unchanged, even when it is only whitespace. Falsy content without that evidence is dropped. A kept message has the resolved role, whatever that role is, and non-empty content. |
| Normalize.CountSnoc | for-chinese/chat_export.py:378-385 | One more message adds 1 to the question count for a user role. It adds 1 to the answer count for an assistant role right after a user turn. The cursor moves only for user and assistant roles. |
| Normalize.CountConversation | for-chinese/chat_export.py:336-385 | The loop returns the kept messages, the number of user messages and the turn count. It returns None when some item raises. |
| Normalize.KeptAbort | for-chinese/chat_export.py:366-401 | Once an item raises, the whole record is lost, whatever follows it. |
| Normalize.AnsweredBound | for-chinese/chat_export.py:378-385 | Each user question is answered at most once. After an answer the cursor is no longer on a user turn. |
| Normalize.CountBounds | for-chinese/chat_export.py:378-385 | `user_questions <= chat_count <= 2 * user_questions`. |
| Normalize.DoubleAnswer | for-chinese/chat_export.py:378-385 | [user, assistant, assistant] gives one question and a chat count of 2. |
| Normalize.OtherRoleKept | for-chinese/chat_export.py:364-385 | A message with role `"system"` and non-empty content is kept as it is. It changes neither counter nor the cursor. |
| Normalize.TitleOf | for-chinese/chat_export.py:324 | The title is `title` if truthy. Otherwise it is `name` if present, even when empty or null. Otherwise it is `未命名会话`. |
| Normalize.ConversationOf | for-chinese/chat_export.py:320-337 | A missing conversation is an empty list. A list yields exactly its items. A string or a dictionary yields no items the loop keeps. A null, boolean or integer one makes `len` raise. |
| Normalize.NormalizeRecord | for-chinese/chat_export.py:305-401 | Each record is lost when it is not valid JSON, not a dictionary, or raises. It is dropped without kept messages. Otherwise it becomes a session with the defaults `''` and `0` for `composerId` and `_v`. |
| Normalize.ReadChatHistory | for-chinese/chat_export.py:305-401 | The sessions are those of the records that become sessions, in record order. |
| Normalize.RecordValid | for-chinese/chat_export.py:370-394 | A session has messages, every message has non-empty content, and its counters equal the counts of its messages. |
| Normalize.RecordAddedIff | for-chinese/chat_export.py:393-394 | A dictionary record becomes a session exactly when its conversation keeps at least one message and raises nowhere. |
| Normalize.SessionsValid | for-chinese/chat_export.py:393-394 | Every returned session satisfies the session invariant. |
| Normalize.SessionsAppend | for-chinese/chat_export.py:305-394 | The sessions of two runs of records are the concatenation of their sessions, so order is kept. |
| Normalize.SessionsAtMostRecords | for-chinese/chat_export.py:305-394 | There are never more sessions than records. |
| Render.RenderMessages | for-chinese/chat_export.py:455-465 | The inner loop emits one `process_code_blocks` block per message with role "1"/1 or "2"/2, in order. |
| Render.RenderSection | for-chinese/chat_export.py:451-473 | A session without messages, or without a message to show, gets no block. Otherwise it gets one block with its header. |
| Render.Display | for-chinese/chat_export.py:443-446 | `f"{title}"`: a string as it is, an integer in decimal, `True`/`False`/`None` as Python spells them, and a list or dictionary by its printed form. |
| Render.SessionHeader | for-chinese/chat_export.py:437-446 | Mode current shows only `总计N条聊天对话`. Mode all puts the title before `(总计N条聊天对话)`. The summary modes put the title before `(总计N条用户提问)`. |
| Render.CreateHtmlContent | for-chinese/chat_export.py:419-480 | The result is the aggregate header (modes all and summary) and the session blocks, joined with `"\n"`. |
| Render.MessageDivsEmptyIff | for-chinese/chat_export.py:456-467 | A session gets no message block exactly when none of its messages has a numeric role. |
| Render.MessageDivsFrom | for-chinese/chat_export.py:456-465 | Every block is the user or assistant block of one of the session's messages, chosen by its role. |
| Render.MessageDivsAppend | for-chinese/chat_export.py:456-465 | Blocks keep message order. |
| Render.NamedRolesNotShown | for-chinese/chat_export.py:461-465 | Messages whose role is the string "user" or "assistant" get no block. |
| Render.SectionIff | for-chinese/chat_export.py:451-473 | A session appears exactly when one of its messages has a numeric role. |
| Render.SectionsBound | for-chinese/chat_export.py:433-473 | At most one block per session. There are none exactly when no session has a block. |
| Render.AggregateFirst | for-chinese/chat_export.py:426-431 | In modes all and summary, the output starts with the `总计：N组聊天记录` block. In the other modes, only session blocks appear. |
| Render.ExportSummaryContent | for-chinese/chat_export.py:535-570 | The body is the totals block followed by one block per session with questions, joined with `"\n"`. There is no body without sessions. |
| Render.QuestionContentsCount | for-chinese/chat_export.py:557-558 | There is one extracted user question per counted user question. |
| Render.TotalQuestionsAppend | for-chinese/chat_export.py:535 | The total is the sum of the sessions' question counts, for any split of the list. |
| Render.SummarySectionIff | for-chinese/chat_export.py:553-561 | For sessions the reader returns, a session appears in the summary exactly when it has a user question. |
| Render.CurrentSummaryContent | for-chinese/chat_export.py:598-612 | The body is built from the latest session only. It is absent without sessions or without a user message. Otherwise it is one block headed `总计N条用户提问`, with one block per non-blank question. |
| Render.CurrentSummaryIff | for-chinese/chat_export.py:598-606 | The current summary exists exactly when the latest session has a user question. |
| Render.QuestionDivsCount | for-chinese/chat_export.py:564-565 | Blank questions get no block. There are no blocks exactly when every question is blank. |
| Render.SafeTitle | for-chinese/chat_export.py:494 | The sanitised title has the length of the title. |
| Render.SafeTitleChars | for-chinese/chat_export.py:494 | Every character of the result is alphanumeric, space, `_` or `-`. Such characters of the title are kept in place, and every other one becomes `_`. |
| Render.SafeTitleIdempotent | for-chinese/chat_export.py:595 | Sanitising twice gives the same as sanitising once. |

Where the code and the prose description of the exporter differ, the model
follows the code:
- `create_html_content` shows only roles "1"/1 and "2"/2. A message whose
  role is the string `'user'` or `'assistant'` is kept and counted by the
  reader, but it gets no block in the chat pages. It does appear in the
  question summaries, which test `["1", 1, "user"]`.
- With [user, assistant, assistant], the code counts 2 chat turns, not 3.
  The cursor is already on the assistant at the second answer.
- Titles reach the headers and the file name unescaped. Only message text
  goes through `process_code_blocks`.
- A kept message whose resolved role is neither a user nor an assistant
  role, such as `"system"`, stays in the session. It counts in neither
  counter (`Normalize.OtherRoleKept`).
- A message that is one fence line, such as `` ```print(1)``` ``, renders
  as `""`, not as a preformatted block. The fence is dropped and the block
  it opens never gets a line, so it is not flushed
  (`CodeBlocks.FenceOnlyMessage`).
- Because the resolved role is always truthy, the `else` branch of
  `if role:` does not occur.

## Left out

- Database access: opening the SQLite database, `shutil.copy2`, `os.remove`
  and the db-path search. These are foreign calls and filesystem I/O.
  `ReadChatHistory` takes the records of one database in query order. The
  outer loop over several databases only concatenates their sessions (see
  `Normalize.SessionsAppend`).
- Workspace detection. It reads environment variables and files and uses
  Python's salted `hash`.
- Decoding of bytes and JSON. A record is given already decoded as
  `Some(value)`, or as `None` when `json.loads` would raise.
- JSON numbers with a fraction or exponent (Python floats). They are not
  in `Value`.
- Iterating a conversation that is a string or a dictionary. It yields
  strings, which the loop skips, so the model gives it no items.
- The exact text of `str(msg)` and of `str()` for list or dictionary
  titles. Both are the parameter `show`.
- Unicode `str.isalnum`, which is the parameter `isAlnum`.
- `safe_title` applied to a title that is not a string.
- Timestamps, `HTML_TEMPLATE.format`, file names and file writes, the
  command line in `main`, and every `print`.
- The broad `except` clauses. The model turns any exception raised inside
  a record into the `Failed` outcome.
- `export_current_chat` and `export_all_chats` beyond their use of
  `create_html_content` with modes `current` and `all`. They only select
  sessions and write files.
