# ai-marketing: prompt and reply handling, modelled in Dafny

This project models the deterministic text handling of the ai-marketing
e-mail generator. On the client side, in `submit_prompt` of `aimarketing/utils.py`:

- choosing the backend from the `LLM_URL` setting: the streamed chat
  completion (POST) or the "megatron" generate backend (PUT);
- building the input prompt;
- retrying the chat request, up to six attempts;
- `parse_stream`, the server-sent-events line parser;
- assembling and normalising the streamed reply chunk by chunk;
- removing the echoed prompt from the generate backend's reply;
- the text of the record appended to the audit log.

On the e-mail generation page (`app/pages/1_Generate_E-mails.py`):

- the user prompt built from a contact row (`format_user_prompt`);
- the per-line trim of a campaign's system prompt;
- the bold rendering of a prompt (`print_prompt`);
- each campaign's column list and row filter.

Modules:

- `Wrappers`: `Option` and `Result`.
- `Text`: Python's `str.split`, `sep.join`, `strip` and `replace(p, "", 1)`, as
  functions over sequences, with their round trips.
- `Newlines`: `re.sub(r"\n+", "\n\n", …)` and its guarantees.
- `EventStream`: `parse_stream` over the body's byte lines, with an abstract JSON decoder.
- `Submit`: `submit_prompt` and `request_post_retry`.
- `Emails`: the e-mail page's prompt building and its campaign tables.

How the model treats the program's behaviour:

- **Environment as parameters.** The JSON decoder is a parameter of type
  `seq<Byte> -> Option<Delta>`. It stands for `json.loads(line.decode("utf-8"))`
  together with the `["choices"][0]["delta"]` lookup. A chunk's `content` is
  absent, a string, or something else; anything else makes `"".join` raise.
  The transport is a parameter `send: nat -> Option<Response>`, where attempt
  `k` either raises (`None`) or yields a response. The log timestamp is a
  parameter.
- **`parse_stream` as a generator.** It yields chunks until the body ends or
  the sentinel line arrives, or it raises on a line that fails to decode.
  `ParseStream` returns the chunks yielded plus how the generator ended.
  `CollectReplies` is the loop of `submit_prompt` over them: it appends each
  delta, recomputes the full joined reply and normalises it for display.
- **Errors.** A `SubmitError` stands for each exception the model
  represents: the transport raising, the retries running out, a chunk that
  fails to decode, a content that is not text, a stream without chunks, and a
  body without the field its branch reads. Exceptions from writing the log
  file are not represented (see "Left out"). If the stream yields no chunk at all, `formatted_reply` is never assigned
  and the function fails with an unbound local. The model returns `NoChunks`
  for that case.

The model follows the code in these points, where a looser reading of the
behaviour would suggest otherwise:

- every run of ONE or more newlines becomes exactly two, not only runs of two or more;
- the echoed prompt is removed at its first occurrence anywhere in the text,
  not only at its start;
- the generate backend's reply is not normalised;
- the sentinel is compared after `bytes.strip()`, while the `data: ` prefix
  is tested on the unstripped line;
- a response with a non-2xx status does not raise in `requests`, so it is not retried;
- with `use_streamlit=False` the chat branch reads `response.json()["choices"][0]["message"]["content"]`,
  although the request always asks for a streamed reply (`"stream": True`). A server that
  honours that flag sends an event stream, which is not one JSON document, so this branch then
  fails. The model keeps the body's JSON reading (`messageContent`) independent of its lines,
  so `Reply` and `ChatReplyIsNormalized` also describe a success of that branch. That success
  is reachable only from a server that ignores the flag.

## Model

| member | source | states |
|---|---|---|
| Text.Split | ai-marketing/aimarketing/utils.py:27 | `str.split` yields one piece more than there are separators, and no piece contains the separator |
| Text.JoinSplit | ai-marketing/aimarketing/utils.py:100 | joining the pieces of a split with the separator gives back the original text |
| Text.SplitJoin | ai-marketing/app/pages/1_Generate_E-mails.py:80 | splitting separator-free pieces joined with the separator gives back the pieces |
| Text.JoinSplitIsReplace | ai-marketing/aimarketing/utils.py:100 | `with.join(s.split(sep))` replaces every separator by `with` and changes nothing else |
| Text.SplitAtSeparator | ai-marketing/aimarketing/utils.py:100-104 | the pieces of `x + sep + y` are the pieces of `x` followed by those of `y` |
| Text.SplitJoinPadded | ai-marketing/app/pages/1_Generate_E-mails.py:69 | joining separator-free pieces with `pad + sep` and splitting again gives the pieces, each but the last followed by `pad` |
| Text.SplitUnlines | ai-marketing/app/pages/1_Generate_E-mails.py:57-63 | separator-terminated pieces split back into the pieces plus one empty piece |
| Text.LastPieceShape | ai-marketing/aimarketing/utils.py:27 | `s.split(sep)[-1]` is a separator-free suffix of `s` that is all of `s` or follows a separator |
| Text.LastPieceIs | ai-marketing/aimarketing/utils.py:27 | conversely, any separator-free suffix that is all of `s` or follows a separator is the last piece |
| Text.TrimShape | ai-marketing/aimarketing/utils.py:114 | `strip` keeps one contiguous slice, with only blank elements cut on either side and no blank element left at either end |
| Text.TrimIdempotent | ai-marketing/app/pages/1_Generate_E-mails.py:80 | stripping twice equals stripping once |
| Text.TrimSurrounded | ai-marketing/aimarketing/utils.py:114 | stripping text padded with blanks on both sides gives back the text, when its own ends are not blank |
| Text.FindFirst | ai-marketing/aimarketing/utils.py:76 | the index found is an occurrence with no earlier occurrence; `None` means no occurrence at all |
| Newlines.NormalizeNewlines | ai-marketing/aimarketing/utils.py:86-88 | the result starts with a newline exactly when the input does |
| Newlines.NormalizedIsWellSpaced | ai-marketing/aimarketing/utils.py:86-88 | every maximal run of newlines in the result has length exactly two |
| Newlines.WellSpacedIffRunsOfTwo | ai-marketing/aimarketing/utils.py:86-88 | the local test (each newline has a newline neighbour, no three in a row) holds exactly when all maximal runs have length two |
| Newlines.WellSpacedIsFixed | ai-marketing/aimarketing/utils.py:86-88 | text whose newline runs all have length two is left unchanged |
| Newlines.NormalizeFixedPoints | ai-marketing/aimarketing/utils.py:86-88 | normalisation leaves a text unchanged if and only if all its newline runs have length two |
| Newlines.NormalizeIdempotent | ai-marketing/aimarketing/utils.py:95 | normalising twice equals normalising once |
| Newlines.NewlineFreeUnchanged | ai-marketing/aimarketing/utils.py:95 | newline-free text is unchanged |
| Newlines.NormalizeSplice | ai-marketing/aimarketing/utils.py:86-88 | a maximal run of any number of newlines between two texts becomes exactly `"\n\n"` at the same place, and each side is normalised on its own |
| Newlines.NormalizeKeepsText | ai-marketing/aimarketing/utils.py:86-88 | the non-newline characters keep their order, and the result contains a newline exactly when the input does |
| EventStream.Classify | ai-marketing/aimarketing/utils.py:113-117 | a data line is exactly the 6-byte prefix `data: ` followed by its payload, and only the empty line is classified empty |
| EventStream.ClassifyCases | ai-marketing/aimarketing/utils.py:112-117 | a line is the sentinel exactly when it is non-empty and strips to `data: [DONE]`; it is a data line exactly when it is non-empty, not the sentinel and starts with `data: `, and its payload is then the rest of the line after those 6 bytes; every other non-empty line is ignored |
| EventStream.ParseStream | ai-marketing/aimarketing/utils.py:109-118 | `parse_stream` yields at most one chunk per line, and strictly fewer when it stops on a line whose payload fails to decode; `ChunksAreDecodedPayloads` bounds the chunks by the live data lines, and `StopsAtSentinel` and `SkipsOtherLines` state the rest |
| EventStream.LiveLength | ai-marketing/aimarketing/utils.py:112-115 | the count of lines before the first sentinel: at most all the lines, no line before it is the sentinel, and when it stops short the line it stops at is the sentinel |
| EventStream.Payloads | ai-marketing/aimarketing/utils.py:116-117 | the payloads of the data lines before the sentinel, at most as many as those lines |
| EventStream.ChunksAreDecodedPayloads | ai-marketing/aimarketing/utils.py:109-118 | the k-th chunk is the decode of the k-th payload, in order; the generator ends normally exactly when every payload decodes, and otherwise the payload after the last chunk fails to decode |
| EventStream.PaddedSentinelIsDone | ai-marketing/aimarketing/utils.py:114 | `data: [DONE]` with ASCII whitespace on either side is recognised as the sentinel |
| EventStream.JsonDataLine | ai-marketing/aimarketing/utils.py:116-117 | `data: ` followed by a JSON object is a data line carrying that object, not the sentinel |
| EventStream.StopsAtSentinel | ai-marketing/aimarketing/utils.py:114-115 | lines after the sentinel have no effect: the result is that of the lines before it |
| EventStream.SkipsOtherLines | ai-marketing/aimarketing/utils.py:112-117 | an empty line, or a line that is neither the whitespace-padded sentinel nor prefixed with `data: `, may be removed without changing the result |
| Submit.SelectMode | ai-marketing/aimarketing/utils.py:26-30 | the generate backend is chosen only for a URL ending in `generate`; `ModeBySuffix` gives the exact condition |
| Submit.ModeBySuffix | ai-marketing/aimarketing/utils.py:26-30 | the generate backend is chosen exactly when the URL is `generate` or ends in `/generate` |
| Submit.DefaultUrlIsChat | ai-marketing/aimarketing/utils.py:26-30 | the default URL selects the streamed chat backend |
| Submit.TrailingSlashIsChat | ai-marketing/aimarketing/utils.py:27-30 | a URL ending in `/` has an empty last segment and selects the chat backend |
| Submit.InputPrompt | ai-marketing/aimarketing/utils.py:32 | the input prompt holds the newlines of both prompts plus the two of the blank line between them; `InputPromptLines` gives its lines |
| Submit.InputPromptLines | ai-marketing/aimarketing/utils.py:32 | the input prompt's lines are the system prompt's, one empty line, then the user prompt's |
| Text.RemoveFirst | ai-marketing/aimarketing/utils.py:76 | `replace(p, "", 1)` leaves a text without `p` unchanged, and otherwise removes exactly as many elements as `p` has; the `EchoStrip` lemmas say which |
| Submit.EchoStripFirstOccurrence | ai-marketing/aimarketing/utils.py:76 | exactly the first occurrence is deleted; the result is that much shorter, and putting the prompt back there restores the text |
| Submit.EchoStripAtMostOnce | ai-marketing/aimarketing/utils.py:92 | the text is unchanged, or one copy of the prompt shorter and restored by re-inserting it |
| Submit.EchoStripLeadingExample | ai-marketing/aimarketing/utils.py:76 | `"SYS\n\nUSR generated text"` strips to `" generated text"` |
| Submit.EchoStripInteriorExample | ai-marketing/aimarketing/utils.py:76 | an echo after other text is removed too: `"Re: SYS\n\nUSR!"` strips to `"Re: !"` |
| Submit.Joined | ai-marketing/aimarketing/utils.py:83-85 | the join succeeds exactly when every chunk's content is absent or a string |
| Submit.JoinedSnoc | ai-marketing/aimarketing/utils.py:82-85 | appending a chunk extends the joined reply by that chunk's content |
| Submit.JoinedSkipsAbsent | ai-marketing/aimarketing/utils.py:84 | a chunk without `content` contributes `""`, so removing it leaves the joined reply unchanged |
| Submit.JoinedNeverRecovers | ai-marketing/aimarketing/utils.py:83-85 | once a content is not text, the join raises whatever chunks follow |
| Submit.Shown | ai-marketing/aimarketing/utils.py:86-89 | one displayed reply per chunk |
| Submit.ShownSnoc | ai-marketing/aimarketing/utils.py:82-89 | a new chunk adds one displayed reply, the normalised join of all chunks so far, and leaves the earlier ones as they were |
| Submit.CollectReplies | ai-marketing/aimarketing/utils.py:79-89 | the streaming loop returns the reply displayed after each chunk, or the exception that stops it |
| Submit.Reply | ai-marketing/aimarketing/utils.py:71-95 | the reply never fails with a transport error; the generate branch succeeds exactly when the body has a first sentence, the non-streamed chat branch exactly when it has a message content; `ChatReplyIsNormalized` and `StreamedReply` give the chat reply's value, `GenerateReplyIsEchoStripped` the generate reply's |
| Submit.StreamedReply | ai-marketing/aimarketing/utils.py:79-89 | the streaming call succeeds exactly when the stream ends normally with at least one chunk and all contents are text; its reply is then the normalised concatenation of all contents in arrival order |
| Submit.MalformedLineFailsCall | ai-marketing/aimarketing/utils.py:80-89 | a data line that fails to decode makes the whole streaming call fail, with no partial reply |
| Submit.ChatReplyIsNormalized | ai-marketing/aimarketing/utils.py:86-95 | every chat reply has all its newline runs of length two and is a fixed point of normalisation; it is the normalised message content when not streamed, and the normalised join of the streamed chunks otherwise (the non-streamed branch reads an event-stream body as JSON, see the note above) |
| Submit.ReplyIgnoresOtherLines | ai-marketing/aimarketing/utils.py:112-117 | empty lines, and lines that are neither the whitespace-padded sentinel nor prefixed with `data: `, do not change the reply of any branch |
| Submit.GenerateReplyIsEchoStripped | ai-marketing/aimarketing/utils.py:75-77 | the generate reply exists exactly when the body has a first sentence; it is that sentence with the input prompt removed once and nothing more (no normalisation): unchanged when the prompt does not occur, and otherwise cut at its first occurrence |
| Submit.GenerateReplyNotNormalized | ai-marketing/aimarketing/utils.py:75-77 | the generate branch keeps a run of three newlines |
| Submit.HiThereExample | ai-marketing/aimarketing/utils.py:79-89 | two content chunks `"Hi"` and `" there"` followed by the sentinel give the reply `"Hi there"` |
| Submit.HiThereAtDefaultUrl | ai-marketing/aimarketing/utils.py:26-30 | the same holds at the default URL |
| Submit.PostWithRetry | ai-marketing/aimarketing/utils.py:14-17 | at most six attempts; the first attempt that does not raise wins, and every earlier attempt raised; without a success all six were made |
| Submit.RetryBoundExamples | ai-marketing/aimarketing/utils.py:14 | five failures and then a success give that success; six failures give none |
| Submit.SubmitPrompt | ai-marketing/aimarketing/utils.py:23-106 | one PUT for the generate backend or the retried POST for the chat backend, then the reply of the matching branch, or the exception that ends the call |
| Submit.HardBreaks | ai-marketing/aimarketing/utils.py:100 | every newline of a prompt becomes a Markdown hard break, and nothing else changes |
| Submit.HardBreaksKeepLines | ai-marketing/aimarketing/utils.py:100-103 | the prompt keeps its lines, each but the last with two trailing spaces |
| Submit.LogRecord | ai-marketing/aimarketing/utils.py:97-104 | the record starts with the `# <timestamp>` line and ends with the reply and a newline; `LogRecordLines` gives every line |
| Submit.SectionLines | ai-marketing/aimarketing/utils.py:101-104 | a section splits into its heading line, then its body's lines |
| Submit.RecordLines | ai-marketing/aimarketing/utils.py:99-104 | a title line and three sections split into the title, then each heading followed by its body's lines, then the empty piece after the final newline |
| Submit.LogRecordLines | ai-marketing/aimarketing/utils.py:97-104 | the log record's lines are the timestamp heading, `## System Prompt` and the system prompt's lines with hard breaks, `## User Prompt` and the user prompt's lines with hard breaks, `## Reply` and the reply's lines |
| Emails.FormatUserPrompt | ai-marketing/app/pages/1_Generate_E-mails.py:49-65 | the string built line by line is the keyed lines, each newline-terminated, with the previous-event pair only for a truthy event |
| Emails.UserPrompt | ai-marketing/app/pages/1_Generate_E-mails.py:57-65 | the user prompt starts with `COMPANY: `; `UserPromptLines` and the lemmas after it give its lines |
| Emails.PromptWithEvent | ai-marketing/app/pages/1_Generate_E-mails.py:61-63 | the prompt is the no-event prompt, plus the `PREVIOUS_EVENT:` and `PREVIOUS_EVENT_DATE:` lines exactly when the event is truthy |
| Emails.DateIgnoredWithoutEvent | ai-marketing/app/pages/1_Generate_E-mails.py:61-63 | without a truthy event the date argument has no effect |
| Emails.UserPromptLines | ai-marketing/app/pages/1_Generate_E-mails.py:57-65 | for one-line values the prompt's lines are `COMPANY:`, `INDUSTRY:`, `NOTES:`, `CONTACT_NAME:` in that order, then the event pair exactly when the event is truthy, then the empty piece after the final newline |
| Emails.UserPromptNewlineCount | ai-marketing/app/pages/1_Generate_E-mails.py:57-65 | for one-line values the prompt has four newlines, or six with a previous event |
| Emails.UserPromptEndsInNewline | ai-marketing/app/pages/1_Generate_E-mails.py:57-65 | the prompt always ends in a newline |
| Emails.TrimSystemPrompt | ai-marketing/app/pages/1_Generate_E-mails.py:80 | a one-line prompt is trimmed of spaces and tabs at both ends; `TrimSystemPromptLines` covers prompts of several lines |
| Emails.TrimmedLineShape | ai-marketing/app/pages/1_Generate_E-mails.py:80 | a trimmed line is a slice of the line with only spaces and tabs cut off its ends and none left at them; a one-line input stays one line |
| Emails.TrimSystemPromptLines | ai-marketing/app/pages/1_Generate_E-mails.py:80 | the trimmed prompt has the original's lines, each trimmed: interior untouched, only spaces and tabs cut, and no line begins or ends with a space or tab |
| Emails.TrimSystemPromptKeepsNewlines | ai-marketing/app/pages/1_Generate_E-mails.py:80 | the trim keeps the number of newlines |
| Emails.TrimSystemPromptIdempotent | ai-marketing/app/pages/1_Generate_E-mails.py:80 | trimming a trimmed prompt changes nothing |
| Emails.BoldPrompt | ai-marketing/app/pages/1_Generate_E-mails.py:68-69 | a one-line prompt renders as `**prompt**`; `BoldPromptLines` covers prompts of several lines |
| Emails.BoldPromptLines | ai-marketing/app/pages/1_Generate_E-mails.py:68-69 | the rendering has one line per prompt line, in order, each `**line**`, and all but the last followed by a hard break |
| Emails.CampaignSelect | ai-marketing/app/pages/1_Generate_E-mails.py:83-106 | a column list exists exactly for the two campaign names, and it starts with `UID` and includes `CONTACT_EMAIL` |
| Emails.CampaignFilter | ai-marketing/app/pages/1_Generate_E-mails.py:109-113 | a filter exists exactly for the two campaign names, and it tests the `PREVIOUS_EVENT` column |
| Emails.CampaignColumns | ai-marketing/app/pages/1_Generate_E-mails.py:83-106 | both campaigns have a column list; a returning customer's eight columns have the previous event in fourth place and the humanised event date in fifth; a new customer's columns are the same list without that pair, starting with `UID` and including `CONTACT_EMAIL` |
| Emails.NewCustomerHasNoEvent | ai-marketing/app/pages/1_Generate_E-mails.py:98-106 | no column of a new customer's list is a previous-event column |
| Emails.CampaignsPartitionRows | ai-marketing/app/pages/1_Generate_E-mails.py:109-113 | every row matches exactly one campaign filter, decided by whether its previous event is null, and a new customer's row never has a truthy event |

## Left out

- HTTP: `requests.post`/`put`, the headers and both request payloads
  (model name, `MAX_TOKENS = 300`, sampling settings). These are foreign
  calls; the transport is the `send` parameter.
- The randomised exponential waits between retries (1 to 60 seconds). These
  are timing; only the six-attempt bound is modelled.
- JSON and UTF-8 decoding, including the shape checks on a chunk. These are
  foreign code, folded into the `Decoder` parameter.
- File I/O: appending to `app/log.md`, including the `# {response}` line and
  the `print(response)` in generate mode. Only the text of the log record is
  modelled, and its timestamp (`datetime.now()`) is a parameter. The
  exceptions that opening or writing the file can raise (an `OSError`) are not
  modelled, so `SubmitPrompt` returns a reply where the program would fail
  while logging. The generate branch opens the log file even when `log` is
  false (utils.py lines 66-67), so it can fail there too.
- Streamlit display: `st.empty()` and `markdown`. The displayed sequence of
  replies is modelled (`Shown`) for a stream that succeeds, not the widget.
  When the stream later fails (a line that does not decode, a content that is
  not text), `CollectReplies` returns only the error. The replies already
  displayed before that exception are not part of the result.
- The `__main__` block of `utils.py`, which calls a function that is not defined.
- `humanize_date`: `Column.HumanizedDate` records which column it is applied
  to and under which alias. `date_utils.py` is not part of this model.
- Reading `extraordinary_events.json` in `get_system_prompt`, which is file
  I/O. Only the trim is modelled.
- Snowpark sessions, `get_table`, `get_contacts`, the page's generation loop
  and progress bar, and `write_pandas`. These are a foreign engine and UI.
- `sql/setup.py` and `sql/make_udfs.py`: deployment scripts run by Snowflake.
- Emails.CampaignsPartitionRows: stated for rows that have a `PREVIOUS_EVENT`
  column, as every row of the contacts table does. Pandas `NaN` cells are not
  modelled; a cell is a string or null.
