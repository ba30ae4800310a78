# Lead-capturing chatbot back end, in Dafny

This project models two successive versions of a Messenger/ManyChat sales
chatbot for the "Work Smart with AI" course business. Both bots forward each
user message to a language model, keep one chat session per sender, and
record the sender's name, phone and service of interest as a lead in a
spreadsheet whose column 1 is the sender id.

- **app.py** (module `LeadBot`, file `lead_bot.dfy`). After each message the
  bot renders the whole conversation as `User:`/`Bot:` lines. It asks the
  model to extract the lead, cuts the JSON object out of the answer (code
  fences removed, first `{` to last `}`) and merges the three fields into
  the sheet. If all three are `"N/A"`, nothing is written.
- **app-7.py** (modules `SalesBot` and `Webhook`, files `sales_bot.dfy` and
  `webhook.dfy`).
  - The model's answer carries a `<data>{...}</data>` payload. The payload is
    upserted into an eight-column row: name, quoted phone, service, status,
    last contact, follow-up counter and stop flag.
  - The user is shown the answer with every such segment removed.
  - The Facebook webhook checks the subscription token on GET. On POST it
    hands every non-echo text message of a page batch, in order, to the bot.

Shared pieces:
- `Text` (`text.dfy`): the Python string operations used: `find`, `rfind`,
  `strip`, `replace(pat, "")`, `str(int)`, and the non-greedy
  `<data>(.*?)</data>` search and substitution.
- `Sheet` (`sheet.dfy`): the worksheet as a `Table` class over rows. It has
  `update_cell`, `append_row` and the column-1 `find`.
- `Chat` (`chat.dfy`): session histories.
- `Json` (`json.dfy`): the decoded object with `dict.get`.
- `Wrappers` (`wrappers.dfy`): `Option`.

External services are parameters:
- The model's answer is an `Option<string>`, where `None` means the call
  raised.
- `json.loads` is a function `string -> Option<Record>`, where `None` means
  the text does not decode to an object.
- The clock is a timestamp string.
- The sheet is a nullable `Table`, where `null` means the credentials are
  missing.

Where the design description and the code differ, the model follows the
code:
- In app.py an empty extracted value does overwrite a stored cell; only
  `"N/A"` is skipped.
- The lookup takes the first row whose column 1 matches. `UniqueIds` states
  the at-most-one-row property, and both saves preserve it.
- A stop request from a sender with no row is inserted with the extracted
  status, or "New", and stop flag False (app-7.py:107-119); only an update
  of an existing row sets "Not Interested" and ticks the flag. So a stop
  request does not always end as "Not Interested" on the sheet, and
  `NewRow` models the insert as written.
- Echo events are dropped. No pause window is started, because neither file
  has one.

## Model

| member | source | states |
|---|---|---|
| Sheet.FindRow | app-7.py:62-65 | `sheet.find(id, in_column=1)`: the first row whose column 1 is exactly the id; None exactly when no row holds it |
| Sheet.RowOf | app-7.py:110-119 | `append_row(values)`: value k lands in column k + 1 and the row has no other column |
| Sheet.WriteIf | app-7.py:87-89 | a conditional `update_cell`: only the named column changes, and only when the condition holds |
| Sheet.FindAfterWrite | app-7.py:82-105 | rewriting a row without touching its id cell leaves every lookup where it was |
| Sheet.FindAfterAppend | app-7.py:107-119 | a row appended for an id no row holds is where that id is found afterwards |
| Sheet.UniqueAfterWrite | app-7.py:82-105 | a write that keeps the id cell keeps ids unique |
| Sheet.UniqueAfterAppend | app-7.py:107-119 | appending a row with a new id keeps ids unique |
| Sheet.Table.UpdateCell | app-7.py:97 | `update_cell(row, col, v)`: that cell of that row is set, every other row and cell is kept |
| Sheet.Table.WriteCellIf | app-7.py:87 | `if cond: update_cell(...)`: the cell is set when the guard holds, the table is unchanged otherwise |
| Sheet.Table.AppendRow | app-7.py:110-119 | one row is added at the end holding exactly the given values, earlier rows unchanged |
| Text.IndexOf | app.py:106 | `str.find`: an occurrence with none before it; None exactly when the pattern does not occur |
| Text.LastIndexOf | app.py:107 | `str.rfind` for one character: an occurrence with none after it; None exactly when absent |
| Text.Strip | app-7.py:172 | `str.strip()`: an infix of the text, empty exactly when the text is all whitespace, otherwise without whitespace at either end |
| Text.StripOnlySpace | app-7.py:172 | `str.strip()` removes only whitespace: the result sits at some index of the text, with whitespace alone before it and after it |
| Text.StripKeeps | app.py:105 | stripping never removes a non-whitespace character |
| Text.StripIdempotent | app-7.py:172 | stripping twice is stripping once |
| Text.RemoveAllKeeps | app.py:105 | `replace(pat, "")` keeps every character that the pattern does not contain |
| Text.RemoveAllAbsent | app.py:105 | `replace(pat, "")` leaves text without the pattern unchanged |
| Text.RemoveAllFirst | app.py:105 | `replace(pat, "")` removes the first occurrence of the pattern, keeps the text before it, and goes on after it |
| Text.RemoveAllAtIndex | app.py:105 | the same, for the first occurrence as `find` reports it |
| Text.IntToString | app-7.py:79 | `str(n)`: for n >= 0, decimal digits whose value is n, with no leading zero except for "0" itself; for n < 0, a minus followed by such digits for -n |
| Text.FirstSegment | app-7.py:171 | `re.search('<data>(.*?)</data>', DOTALL)`: None exactly when no close delimiter follows an open one; otherwise the group sits between the delimiters and holds no close delimiter |
| Text.RemoveSegmentsUntagged | app-7.py:172 | the substitution leaves unchanged any text in which no close delimiter follows an open one, an open delimiter never closed included |
| Text.RemoveSegmentsFirst | app-7.py:172 | the substitution removes the first whole segment and keeps the text before it |
| Text.KeepBeforeFirst | app-7.py:172 | everything before the first open delimiter comes through the substitution unchanged |
| Text.FirstSegmentOf | app-7.py:171 | for text `pre + <data> + p + </data> + post` with no open delimiter in `pre` and no close delimiter in `p`, the search returns `p` |
| SalesBot.QuotePhone | app-7.py:78-80 | "N/A" and "" pass through; text already starting with an apostrophe is kept as it is; any other phone becomes its `str()` value behind one added apostrophe |
| SalesBot.QuotePhoneIdempotent | app-7.py:78-80 | quoting twice is quoting once |
| SalesBot.QuotePhoneOfNumber | app-7.py:78-80 | a phone decoded as a number is stored as its digits behind one apostrophe |
| SalesBot.ReadLead | app-7.py:67-80 | name, service and status are the payload's values or "N/A" when absent; the phone is the quoted payload value or "N/A", provided exactly when it was provided before; the stop flag is set exactly when `stop_followup` is present and truthy |
| SalesBot.UpdatedRow | app-7.py:82-105 | columns 2-4 are overwritten only by provided values; status column 5 by any value but "N/A"; columns 6 and 7 always get the time and 0; a stop request ends with column 8 True and column 5 "Not Interested"; other columns are kept |
| SalesBot.NewRow | app-7.py:107-119 | exactly eight columns: the id, the fields, the status or "New", the time, 0, and False even on a stop request |
| SalesBot.Upsert | app-7.py:62-123 | the first matching row alone is updated, or exactly one row is appended; the row count changes by at most one; the sender is found afterwards; unique ids stay unique |
| SalesBot.UpsertFound | app-7.py:82-105 | for a sender who has a row, the save rewrites only that row |
| SalesBot.UpdatedRowIdempotent | app-7.py:82-105 | applying the same save twice to a row writes nothing new the second time |
| SalesBot.NewRowSettled | app-7.py:107-119 | without a stop request, saving again onto the row just created changes nothing |
| SalesBot.UpsertTwice | app-7.py:62-123 | a second delivery of the same payload at the same timestamp leaves the sheet as the first left it, except for a stop request from a newly inserted sender |
| SalesBot.StopOnNewSender | app-7.py:103-119 | a stop request from a sender no row holds, in any sheet, appends one row whose column 8 is False; delivering it again ticks it |
| SalesBot.UpdateLeadRow | app-7.py:86-105 | the eight cell writes, in the source's order, leave the row as `UpdatedRow` and the other rows as they were |
| SalesBot.SaveToSheetAsync | app-7.py:50-123 | without a sheet nothing happens; otherwise the sheet becomes `Upsert` of the read payload |
| SalesBot.DelimitersSelfDisjoint | app-7.py:171 | `<data>` and `</data>` cannot overlap themselves |
| SalesBot.SplitTaggedAnswer | app-7.py:170-182 | for an answer with one data segment, the payload is the segment's content and the reply is the rest of the answer, stripped |
| SalesBot.SplitUntaggedAnswer | app-7.py:171-182 | an answer in which no `</data>` follows a `<data>`, an unclosed `<data>` included, saves nothing and is shown stripped |
| SalesBot.Bot.AskGemini | app-7.py:160-186 | the sender's session is opened if missing and the exchange is appended on success; the reply is the cleaned answer or the apology; the sheet is upserted with the parsed payload |
| SalesBot.Bot.OpenSession | app-7.py:160-162 | a session is created only for a sender without one |
| SalesBot.Bot.SendMessage | app-7.py:164-168 | the exchange is appended to the sender's history |
| SalesBot.SaveAnswerData | app-7.py:174-180 | a segment that parses is saved for the sender; otherwise the sheet is unchanged |
| Webhook.VerifyWebhook | app-7.py:213-216 | status 200 exactly when the token matches and a challenge is present, with the challenge as body; a wrong token gives "Fail", 403 |
| Webhook.AllEventsAppend | app-7.py:222-223 | the event walk over two runs of entries is the walk over the first, then the second |
| Webhook.RunFailedSticks | app-7.py:219-232 | once an eligible event without a sender has failed the request, later events dispatch nothing |
| Webhook.SelectedSnoc | app-7.py:224 | the filter over a batch plus one event is the filter over the batch, then that event's pick |
| Webhook.RunMeaning | app-7.py:218-232 | the request fails exactly when some eligible event lacks a sender id; otherwise every non-echo text message is dispatched, in order |
| Webhook.StopsAtFirstBroken | app-7.py:219-232 | the first eligible event without a sender ends the request after the messages before it |
| Webhook.WebhookPost | app-7.py:218-232 | no body gives "Error", 500; a non-page object dispatches nothing with "OK", 200; a page batch is walked entry by entry and event by event, as `Run` over all events |
| Chat.Exchanged | app.py:139 | a successful send appends the user's turn and the model's; a failed send leaves the history |
| Chat.SessionStep | app.py:120-139 | one message leaves every other sender's session as it was; the sender's history only grows, from the stored one or from the primed one |
| LeadBot.Filled | app.py:71-75 | each of columns 2-4 is overwritten exactly when its value is not "N/A", an empty value included; every other column is kept |
| LeadBot.ContactRow | app.py:77-78 | exactly four columns: the id, name, phone and service, "N/A" kept as it is |
| LeadBot.Merge | app.py:62-79 | all three "N/A" leaves the sheet; otherwise the first matching row alone is filled or one row is appended; the sender is found afterwards; unique ids stay unique |
| LeadBot.MergeFound | app.py:69-75 | for a sender who has a row, the save rewrites only that row |
| LeadBot.FilledIdempotent | app.py:71-75 | filling a row twice with the same fields writes nothing new |
| LeadBot.ContactRowSettled | app.py:71-78 | filling the appended row with its own fields changes nothing |
| LeadBot.MergeIdempotent | app.py:62-79 | saving the same extraction twice is saving it once |
| LeadBot.SaveToGoogleSheet | app.py:51-82 | without a sheet nothing happens; otherwise the skip, the writes or the append leave the sheet as `Merge` |
| LeadBot.FillRow | app.py:71-75 | the three conditional cell writes leave the matched row as `Filled` and the other rows as they were |
| LeadBot.TranscriptDefined | app.py:88-92 | the history renders exactly when every turn has a text part |
| LeadBot.TranscriptSnoc | app.py:90-92 | one more turn adds one line: its label ("User" for the user's role, "Bot" otherwise), ": ", its text and a newline |
| LeadBot.TranscriptOfExchange | app.py:90-92 | an answered message adds the lines "User: message" and "Bot: answer" to the rendering |
| LeadBot.ExchangeLines | app.py:91-92 | the user's turn renders as a "User: " line, the model's as a "Bot: " line |
| LeadBot.RenderHistory | app.py:88-92 | the loop builds the rendering of the history, or fails on a turn without parts |
| LeadBot.NoTranscriptAfter | app.py:90-92 | a turn without parts makes the rendering of the whole history fail |
| LeadBot.Slice | app.py:108 | Python's `s[start:end]`: the characters from `start` up to `end` clipped to the length, empty when the range is empty |
| LeadBot.FindChar | app.py:106 | `find` for one character: found exactly when the character occurs, and at its first occurrence |
| LeadBot.JsonCandidate | app.py:106-108 | the slice is non-empty exactly when some `}` follows some `{`; a non-empty slice runs from the first `{` of the text through its last `}`, with no `{` before it and no `}` after it |
| LeadBot.CandidateShape | app.py:106-108 | the slice bounds from the first `{` and after the last `}` give exactly that slice: empty when no `}` follows, otherwise the stretch from the first `{` through the last `}` |
| LeadBot.CandidateSpan | app.py:106-108 | a slice from a `{` with no `{` before it to just past a `}` with no `}` after it is the outermost braced stretch: non-empty, opening with `{`, closing with `}` |
| LeadBot.CandidateFound | app.py:106-108 | a `}` after any `{` makes the slice non-empty |
| LeadBot.ExtractJsonSlice | app.py:104-108 | no candidate exactly when the answer has no `{`; a non-empty candidate starts with `{` and ends with `}` |
| LeadBot.SliceOfCleaned | app.py:104-108 | for an answer holding `{`, the candidate is the first-`{`-to-last-`}` slice of the answer with its ```` ```json ```` and ```` ``` ```` fences removed and then stripped |
| LeadBot.KeepsBrace | app.py:104-105 | a `{` of the answer survives the fence removal and the stripping |
| LeadBot.BareObjectPassesThrough | app.py:104-108 | an answer that is a bare object with no fences is cut out whole, whitespace aside |
| LeadBot.FencedAnswer | app.py:105 | an answer wrapped as ```` ```json ```` + b + ```` ``` ````, with no backquote in b, comes through the fence removal as exactly b |
| LeadBot.FencedObjectPassesThrough | app.py:104-108 | a bare object wrapped in a ```` ```json ```` fence is cut out whole, whitespace aside |
| LeadBot.Fenceless | app.py:105 | an answer with no backquote comes through the fence removal unchanged |
| LeadBot.WholeCandidate | app.py:106-108 | text that opens with `{` and closes with `}` is its own slice |
| LeadBot.ExtractedLead | app.py:84-113 | a sender without a session, or whose history does not render, yields no lead; a lead needs a rendered history and a generated answer holding `{` |
| LeadBot.Bot.AskGemini | app.py:118-143 | the session is created only when missing and extended on success; the reply is the model's text or the apology "ခဏနေမှ ပြန်မေးပေးပါခင်ဗျာ။" |
| LeadBot.Bot.StartChat | app.py:120-136 | a session is created only for a sender without one |
| LeadBot.Bot.SendMessage | app.py:138-140 | the exchange is appended to the sender's history |
| LeadBot.Bot.CheckAndExtractLead | app.py:84-113 | the sheet ends as `Merge` with the extracted lead, or untouched when any step fails |

## Left out

- The Google service-account credentials and their decoding, the gspread
  client, and opening the workbook. A `null` sheet stands for every failure
  before the lookup.
- The Gemini, Graph API and Flask machinery. Left out with them:
  - `generate_content`, `start_chat`, `send_message` and their settings;
  - `send_facebook_message`;
  - the `/`, `/ping` and `/manychat` routes and `app.run`.
- Model answers, decoded JSON and the clock are inputs.
- The persona, knowledge-base and priming texts are data: each bot class
  takes its opening exchange as `primer`. app.py's extraction prompt is
  `LeadBot.Prompt`: the transcript between placeholder instructions. Its
  wording is not copied, because the model's answer is a parameter and no
  property depends on it.
- Threads. The background saves are modelled as synchronous calls, so races
  between concurrent saves for one sender are not modelled.
- JSON grammar. `json.loads` is a parameter. A payload that decodes to
  something other than an object counts as a parse failure, which in both
  files ends without a write. `null` and floating-point field values are not
  modelled: `Cell` holds text, integers and booleans.
- Partial failure. A cell write that raises half-way through a save, leaving
  some of the cells written, is not modelled; each save is all or nothing.
- Sheet.FindRow: matches only text cells equal to the id. It assumes
  gspread 5 or later, where `find` returns `None` for a missing id. Under
  older gspread, app.py's `find` raises and the sender is never appended.
- The primed history of app-7.py. At app-7.py:161-162 a new session sends
  the knowledge base and keeps the model's answer to it, which varies from
  call to call. The model takes that opening exchange as a fixed `primer`
  parameter, so the sender's history is primed deterministically.
- Webhook.WebhookPost: event shapes that `Body` cannot represent are not
  modelled. An event whose message has `"text": null` passes the test at
  app-7.py:224 and is dispatched with `None` as its text. An `"entry"` that
  is `null` or not a list makes the loop at app-7.py:222 raise, which gives
  "Error", 500. In `Body` a message's text is present or absent, so a `null`
  text reads as absent and the event is skipped, and `entry` is always a
  list.
- SalesBot.Bot.AskGemini: does not model a failure of the knowledge-base
  send when a session is opened. In app-7.py that send is outside the
  `try`, so it would abort the request and leave the fresh session behind.
- LeadBot.Bot.AskGemini: does not model a failure of `start_chat` itself;
  a failed call is always a failed `send_message`.
- The case where `GOOGLE_API_KEY` is missing: app.py then never defines
  `user_sessions`, and every call fails into its error path.
- Webhook.WebhookPost: returns the list of messages handed to the bot in
  place of calling `ask_gemini` and `send_facebook_message` for each. A
  failure of one of those calls is not modelled.
- The admin-echo pause windows, edit-intent overrides and missing-field
  directives of other versions of the bot are not part of these two files.
