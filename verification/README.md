# Incident analysis: a Dafny model

This project models the core of a small incident-analysis service for Kubernetes logs,
together with the context handling of its chat client. It then proves properties of the model.

The service works in these steps:

1. It truncates a pasted log to a character budget.
2. It retrieves runbook snippets from a vector store and cuts them to a second budget.
3. It asks a *planner* model for a root cause and a plan, as JSON.
4. It asks a *critic* model to review that plan.
5. It validates the answer against the response schema.
6. Last, it applies a *safety gate*. If any plan step's command matches a small list of
   destructive regular expressions, the gate downgrades the answer to "need more
   information" and removes the plan.

An offline "web search" scores local markdown files by token counts.

The chat client builds a compact header from the most recent turns of the session.
When that header is long, the client compresses it line by line. It also defuses code
fences in text it renders as markdown.

| file | module | models |
|---|---|---|
| `wrappers.dfy` | `Wrappers` | `Option` and `Result` |
| `strings.dfy` | `Strings` | Python string operations on ASCII text: `strip`, `split`, `splitlines`, `lower`, `find`/`rfind`, `count`, `replace`, `join`, and slicing with Python's index rules |
| `json.dfy` | `JsonValues` | decoded JSON values |
| `text.dfy` | `Text` | `utils/text.py` |
| `safety.dfy` | `Safety`, `SafetyExamples` | `utils/safety.py`: the dangerous-command patterns, a backtracking matcher proved equal to their declarative meaning, and concrete verdicts |
| `models.dfy` | `Schemas` | `schemas/models.py`: the response records, validation from JSON, and serialization |
| `prompts.dfy` | `Prompts` | `rag/prompts.py` |
| `pipeline.dfy` | `Pipeline` | `rag/pipeline.py` |
| `web_search.dfy` | `WebSearch` | `rag/mock_web_search.py` |
| `chat_context.dfy` | `ChatContext` | the context functions of `ui/app_chainlit.py` |

Some outside services become function parameters:

- the embedder and vector store, as `retrieve(log, topK)`;
- the chat model, as `chat(system, user)`;
- `json.loads`, as `loads(text)`, which returns `None` where Python raises;
- `html.unescape`.

`AnalyzeLog` returns a `Result<Run, string>`: a `Failure` naming the exception when retrieval cannot be formatted, and otherwise a `Run`. A `Run` holds the final answer plus the list of model calls
made, so "the critic is consulted exactly when the plan parses" can be stated directly.
Exceptions become `Failure` values that carry the name of the Python exception.

## Model

| member | source | states |
|---|---|---|
| Text.Truncate | server/app/utils/text.py:1-5 | A missing text counts as empty. A text within the bound comes back unchanged. A longer one keeps the part Python's `s[:max_chars]` selects, followed by the marker `"\n...[truncated]..."`. For a non-negative bound, the result is at most 18 characters longer than the bound and starts with the first `max_chars` characters. |
| Strings.StripSpec | server/app/rag/pipeline.py:49 | The result is the text with all leading and trailing whitespace removed: it is a contiguous slice, everything cut off is whitespace, and it neither starts nor ends with whitespace. |
| Strings.StripIdempotent | server/app/rag/pipeline.py:49 | Stripping twice is the same as stripping once. |
| Strings.CountZeroIff | server/app/rag/mock_web_search.py:18 | The non-overlapping count of a non-empty token is zero exactly when the token does not occur. |
| Strings.WordsKeepNonSpace | server/ui/app_chainlit.py:233 | `split()` drops only whitespace: the words, concatenated, are the text's non-whitespace characters in order. |
| Strings.JoinSplitLines | server/app/rag/mock_web_search.py:41-42 | For a text whose only line break is `\n` and that does not end in one, joining its `splitlines()` with `\n` gives the text back. |
| Safety.IsCommandDangerous | server/app/utils/safety.py:3-16 | A command is dangerous exactly when one of the five patterns matches somewhere in its lower-cased text. A missing command counts as empty. The patterns are `\brm\s+-rf\b`, `\bwipefs\b`, `\bmkfs\.`, `\bdd\s+if=`, and the fork bomb with `;` and no `&`. |
| Safety.SearchCorrect | server/app/utils/safety.py:14 | The backtracking search succeeds from position 0 exactly when the pattern matches somewhere under its declarative meaning, which gives an end position for each element. |
| Safety.MatchAtSound | server/app/utils/safety.py:14 | Every match the backtracking matcher finds is a match under the declarative meaning. |
| Safety.MatchAtComplete | server/app/utils/safety.py:14 | Every match under the declarative meaning is found by the backtracking matcher. |
| Safety.VerdictIgnoresCase | server/app/utils/safety.py:12 | The verdict on a command equals the verdict on its lower-cased form. |
| Safety.EmptyCommandIsSafe | server/app/utils/safety.py:12 | A missing or empty command is not dangerous. |
| SafetyExamples.RmRfFlagged | server/app/utils/safety.py:4 | `rm -rf /data` is flagged. |
| SafetyExamples.UpperCaseRmRfFlagged | server/app/utils/safety.py:4-12 | `RM  -RF /data` is flagged, because matching runs on lower-cased text and `\s+` allows several blanks. |
| SafetyExamples.RmFrNotFlagged | server/app/utils/safety.py:4 | `rm -fr /data` is not flagged: the flag order matters. |
| SafetyExamples.SplitFlagsNotFlagged | server/app/utils/safety.py:4 | `rm -r -f /` is not flagged. |
| SafetyExamples.WipefsFlagged | server/app/utils/safety.py:5 | `wipefs -a /dev/sdb` is flagged. |
| SafetyExamples.WipefsPartOfWordNotFlagged | server/app/utils/safety.py:5 | `wipefsx -a` is not flagged, because of the word boundary. |
| SafetyExamples.MkfsDotFlagged | server/app/utils/safety.py:6 | `mkfs.ext4 /dev/sdb` is flagged. |
| SafetyExamples.BareMkfsNotFlagged | server/app/utils/safety.py:6 | `mkfs /dev/sdb` is not flagged: the pattern needs the dot. |
| SafetyExamples.DdFlagged | server/app/utils/safety.py:7 | `dd if=/dev/zero` is flagged. |
| SafetyExamples.DdWithoutIfNotFlagged | server/app/utils/safety.py:7 | `dd of=/dev/sda` is not flagged. |
| SafetyExamples.ForkBombWithoutAmpersandFlagged | server/app/utils/safety.py:8 | `:(){ :\|:;};:` is flagged. |
| SafetyExamples.ClassicForkBombNotFlagged | server/app/utils/safety.py:8 | The classic `:(){ :\|:& };:` is not flagged, because the pattern has `;` where that form has `&`. |
| SafetyExamples.ForkBombWithoutSemicolonNotFlagged | server/app/utils/safety.py:8 | `:(){ :\|: };:` is not flagged. |
| Schemas.ParseStatus | server/app/schemas/models.py:22 | A status string is accepted exactly when it names a status. |
| Schemas.ParseConfidence | server/app/schemas/models.py:24 | A confidence string is accepted exactly when it names a confidence. |
| Schemas.ParseRisk | server/app/schemas/models.py:14 | A risk string is accepted exactly when it is one of `low`, `med`, `medium` or `high`. |
| Schemas.ParseEvidenceKind | server/app/schemas/models.py:5 | An evidence type is accepted exactly when it is `log` or `kb`. |
| Schemas.RequiredString | server/app/schemas/models.py:6-7 | A required string field validates to `s` exactly when the key is present with the JSON string `s`. |
| Schemas.ValidateList | server/app/schemas/models.py:26-28 | A list field validates exactly when it is absent (giving the empty list) or is an array whose every item validates, in order. |
| Schemas.ValidateEvidence | server/app/schemas/models.py:4-7 | A JSON value validates to an evidence item exactly when it is an object whose fields carry that item's type, snippet and source. |
| Schemas.ValidatePlanStep | server/app/schemas/models.py:9-14 | A JSON value validates to a plan step exactly when it is an object with the four string fields, and a risk that is present and names the step's risk or is absent with risk `low`. |
| Schemas.ValidateInfoRequest | server/app/schemas/models.py:16-19 | A JSON value validates to an info request exactly when it is an object with its title, command and reason. |
| Schemas.ValidateResponse | server/app/schemas/models.py:21-28 | A JSON value validates to a response exactly when it is an object with the four required fields, and its three list fields are absent or hold valid items. Other keys are ignored. |
| Schemas.ResponseRoundTrip | server/app/schemas/models.py:21-28 | Serializing a response and validating the result gives the same response. |
| Schemas.UnknownKeyIgnored | server/app/schemas/models.py:21-28 | Adding a key the schema does not know never changes the validation outcome. |
| Schemas.RequiredKeysNeeded | server/app/schemas/models.py:22-25 | Removing any of the four required keys makes validation fail. |
| Schemas.MinimalResponse | server/app/schemas/models.py:26-28 | An object with only the four required fields validates, with empty evidence, plan and info requests. |
| Schemas.RiskDefaultsToLow | server/app/schemas/models.py:14 | A plan step without a risk validates with risk `low`. |
| Prompts.BlocksInOrder | server/app/rag/prompts.py:11-18 | The rendering of the k-th context appears in the snippet list at the offset where the earlier blocks and their separators end, so the contexts appear in order. |
| Prompts.RenderEmpty | server/app/rag/prompts.py:18 | Without contexts the snippet list is empty. |
| Prompts.PlannerPromptLayout | server/app/rag/prompts.py:9-49 | The planner prompt is unchanged by the final `strip()`. It starts with `You are given:`, quotes the log verbatim right after its introduction, and ends with the snippet list and `Return ONLY JSON.` |
| Prompts.CriticPromptStripped | server/app/rag/prompts.py:52-82 | The critic prompt is unchanged by the final `strip()`. It starts with `Review the proposed plan.` and ends with the planner's raw JSON followed by `Return ONLY JSON.` |
| Prompts.CriticPromptLayout | server/app/rag/prompts.py:72-79 | The critic prompt quotes the log right after its introduction, and puts the snippet list and the plan header right after the quoted log. |
| Pipeline.ZipContexts | server/app/rag/pipeline.py:23-31 | Contexts pair the shortest of the three lists position by position, with `unknown` and `-1` as defaults. The result fails with `AttributeError` exactly when one of those metadata entries is missing. |
| Pipeline.FormatContexts | server/app/rag/pipeline.py:17-31 | A present but empty batch list raises `IndexError`. When every batch is available, the contexts are exactly those of the first batch, zipped. |
| Pipeline.MissingKeyGivesNoContexts | server/app/rag/pipeline.py:19-21 | A query result missing the documents, the metadata or the distances gives no contexts and no error, provided none of the batch lists that are present is empty. |
| Pipeline.KeepWithinBudget | server/app/rag/pipeline.py:77-86 | The kept contexts are a prefix of the retrieved ones that fits the character budget, and the next context would overflow it. |
| Pipeline.LongestFittingPrefix | server/app/rag/pipeline.py:77-86 | Every prefix that fits the budget is at most as long as the kept one, so the kept prefix is the longest that fits. |
| Pipeline.OuterBracesFound | server/app/rag/pipeline.py:55-57 | The outer-brace condition holds only at the positions `find('{')` and `rfind('}')` return. |
| Pipeline.DecodeOuterBraces | server/app/rag/pipeline.py:55-59 | The fallback succeeds exactly when the text has a first `{` before its last `}` and the slice between them decodes. Otherwise it fails with `JSONDecodeError`. |
| Pipeline.DecodeLenient | server/app/rag/pipeline.py:50-59 | A text that decodes directly gives that value. Otherwise the result is the fallback over the outermost braces. Failures are `JSONDecodeError`. |
| Pipeline.ParseJsonStrict | server/app/rag/pipeline.py:47-59 | Parsing is lenient decoding of the text with its surrounding whitespace stripped. |
| Pipeline.ParseResponse | server/app/rag/pipeline.py:96-98 | A model reply is accepted exactly when it parses and the value validates as a response. Otherwise it fails with `JSONDecodeError` or `ValidationError`. |
| Pipeline.SafeCheck | server/app/rag/pipeline.py:33-45 | An answer with no dangerous step is unchanged. Otherwise the answer's status becomes need-more-info and its plan is emptied. One info request naming the first dangerous command is appended, and all other fields are kept. The result never holds a dangerous step. |
| Pipeline.SafeCheckIdempotent | server/app/rag/pipeline.py:33-45 | Applying the safety gate twice is the same as applying it once. |
| Pipeline.Consult | server/app/rag/pipeline.py:88-135 | The planner is always called first with the planner prompt. Exactly when its reply fails to parse, there is no second call, and the answer is the fixed need-more-info response naming the exception. Otherwise the critic is called with the planner's raw reply. The answer is the safety-gated critic answer, or the plan when the critic's reply fails. No answer holds a dangerous step. |
| Pipeline.DefaultBudgets | server/app/core/config.py:18-22 | With the default settings, the log in the prompts is at most 14000 characters plus the truncation marker, and the snippets total at most 12000 characters. |
| Pipeline.AnalyzeLog | server/app/rag/pipeline.py:61-135 | Analysis fails exactly when formatting the retrieved contexts fails. Otherwise it consults the models on the truncated log and the contexts cut to the budget. |
| Pipeline.PlannerFailureShape | server/app/rag/pipeline.py:99-116 | When only the planner was called, the answer asks for more information with low confidence, no evidence, no plan and one info request. Its summary names `JSONDecodeError` or `ValidationError`. |
| Pipeline.PromptsCarryInputs | server/app/rag/pipeline.py:89-123 | Both prompts quote the log verbatim right after their introduction. The critic's prompt ends with the planner's raw reply followed by the closing instruction. |
| WebSearch.Tokenize | server/app/rag/mock_web_search.py:7-11 | The tokens are the first 25 (or all, when fewer) of the long words of the scrubbed, lower-cased query, in their order. Each is a whitespace-free word of that query, at least 3 characters long and made only of `a-z0-9-/_.:`. |
| WebSearch.LongWordsAppend | server/app/rag/mock_web_search.py:10 | The length filter distributes over concatenation, so it keeps the words of the split in their order. |
| WebSearch.LongWordsOne | server/app/rag/mock_web_search.py:10 | A single word is kept exactly when it has at least 3 characters. |
| WebSearch.TokenizeIgnoresCase | server/app/rag/mock_web_search.py:8 | A query and its lower-cased form give the same tokens. |
| WebSearch.ScoreZeroIff | server/app/rag/mock_web_search.py:13-19 | A text scores zero exactly when none of the tokens occurs in its lower-cased form. |
| WebSearch.Title | server/app/rag/mock_web_search.py:40 | The title is the file stem with each underscore replaced by a blank and every other character kept. |
| WebSearch.SnippetShape | server/app/rag/mock_web_search.py:41-42 | A snippet has at most 800 characters and introduces no line break other than `\n`. It holds at most 11 line breaks, so it spans at most the first 12 lines. For a text whose only breaks are `\n`, it is a prefix of the stripped text. |
| WebSearch.SnippetOfShortText | server/app/rag/mock_web_search.py:41-42 | A stripped text of at most 12 lines and 800 characters is its own snippet. |
| WebSearch.Relevant | server/app/rag/mock_web_search.py:34-38 | A file is among those kept if and only if it is listed and has a positive score. |
| WebSearch.RelevantAppend | server/app/rag/mock_web_search.py:34-38 | The filter distributes over concatenation, so the kept files stay in listing order with their multiplicity. |
| WebSearch.RelevantOne | server/app/rag/mock_web_search.py:36-38 | A single file is kept exactly when its score is positive. |
| WebSearch.Candidates | server/app/rag/mock_web_search.py:34-49 | There is one hit per relevant file, in listing order, with its title, snippet, path and positive score. |
| WebSearch.RankSorted | server/app/rag/mock_web_search.py:51 | The ranked hits are in descending order of score. |
| WebSearch.RankPermutes | server/app/rag/mock_web_search.py:51 | The ranked hits are a permutation of the input hits: none is lost, duplicated or invented. |
| WebSearch.RankIsStable | server/app/rag/mock_web_search.py:51 | Hits with equal scores keep their original relative order, as Python's stable sort keeps them. |
| WebSearch.Search | server/app/rag/mock_web_search.py:21-52 | A query without tokens, or a missing directory, gives no results. Otherwise the results are a prefix of the ranked candidates, sorted by descending score, whose length is what Python's `[:top_k]` keeps of all the files with a positive score. |
| WebSearch.SearchKeepsBest | server/app/rag/mock_web_search.py:51-52 | No hit left out scores higher than a hit returned. |
| ChatContext.UserTurns | server/ui/app_chainlit.py:215 | A turn is in the user-only pool if and only if it is in the history with role `user`. |
| ChatContext.UserTurnsAppend | server/ui/app_chainlit.py:215 | The filter distributes over concatenation, so the pool keeps the user turns in history order with their multiplicity. |
| ChatContext.UserTurnsOne | server/ui/app_chainlit.py:215 | A single turn is kept exactly when its role is `user`. |
| ChatContext.TakeRecent | server/ui/app_chainlit.py:208-216 | Recent turns are a suffix of the pool: the whole history, or only the user turns. For a positive bound the suffix has `min(bound, size)` turns. A zero bound keeps every turn, and a negative bound drops that many turns from the front, as Python's `[-n:]` does. |
| ChatContext.RecentUserTurnsOnly | server/ui/app_chainlit.py:214-216 | Without assistant turns, every recent turn is a user turn. |
| ChatContext.JoinWordsCollapsed | server/ui/app_chainlit.py:233 | Joining whitespace-free words with single blanks gives text whose only whitespace is single inner blanks. |
| ChatContext.ShortenCollapsed | server/ui/app_chainlit.py:237-238 | Shortening keeps a line collapsed and at most 221 characters long: 220 plus the ellipsis. |
| ChatContext.ProcessedLinesShort | server/ui/app_chainlit.py:232-239 | Every line kept by the compressor is collapsed and at most 221 characters long. |
| ChatContext.CompressLoopKeepsSuffix | server/ui/app_chainlit.py:232-244 | The newest-first loop that stops once the joined text reaches the target keeps the processed lines of a suffix of the input. The start of that suffix is given by a separate reference definition. |
| ChatContext.CompressLinesSpec | server/ui/app_chainlit.py:218-244 | The compressed text is the processed suffix joined by `\n`. If an older line was dropped, the text reaches the target. No shorter suffix reaches it, and every kept line is collapsed and short. |
| ChatContext.Cap | server/ui/app_chainlit.py:186 | The capped text is a suffix of the input. It is unchanged when it already fits or the cap is 0. An over-long text keeps exactly its last `cap` characters when the cap is positive; a negative cap drops that many characters from the front. |
| ChatContext.SessionBlockBounded | server/ui/app_chainlit.py:255-260 | With the session's settings, a context block is at most the header, 3500 characters of context, and the closing line. |
| ChatContext.BuildContextBlock | server/ui/app_chainlit.py:163-197 | An empty history gives no block. A block is empty exactly when the capped body is empty. Otherwise the block is the fixed header, the body and the closing line. |
| ChatContext.ContextBlockFramed | server/ui/app_chainlit.py:186-197 | A non-empty block starts with the header, ends with the closing line, and carries the capped body right after the header. The body is a suffix of the uncapped context. |
| ChatContext.CombineContextAndUser | server/ui/app_chainlit.py:199-206 | Without context the user text is sent as is. With context, the message starts with the context and ends with `\nUser: ` followed by the text, and nothing else is inserted. |
| ChatContext.MdInlineHasNoFence | server/ui/app_chainlit.py:14-20 | Sanitized text never contains three backticks in a row. |
| ChatContext.MdInlineKeepsPlainText | server/ui/app_chainlit.py:14-20 | Text that has no code fence after unescaping, and no surrounding whitespace, is left unchanged by sanitizing. |

## Left out

- Unicode: whitespace, `lower()`, `\w`, `\s` and `splitlines()` follow Python only on ASCII
  text. Non-ASCII whitespace, case mappings that change length, and Unicode line
  separators are not modelled.
- `splitlines()` breaks at the ASCII boundaries Python uses: `\n`, `\r`, `\r\n`, `\v`, `\f`,
  and `\x1c` to `\x1e`. Round-trip facts about snippets are stated for texts whose only
  break is `\n`.
- The embedder, the vector store, the chat model, `json.loads` and `html.unescape` are
  parameters. Their behaviour, HTTP, timeouts and retries are outside the model.
- Distances are kept as the text Python prints for the float. Floating-point arithmetic
  is not modelled.
- Metadata entries hold an optional `source` string and an optional integer
  `chunk_index`, which is what ingestion writes. Other value types are not modelled.
- Pipeline.FormatContexts: a batch value of `None` or of a non-list type, which raises
  `TypeError` in Python, is not modelled. A missing key is modelled.
- Pipeline.SafeCheck: Python appends a plain dict to the list of info requests, and
  validation does not run on it. The model appends an `InfoRequest` with the same three
  fields.
- Pipeline.ParseResponse: pydantic's error details are reduced to the exception's name,
  which is all the planner-failure summary uses.
- Pipeline.AnalyzeLog: the `temperature` argument and the logging calls are left out.
  The code has no escalation round or third model call.
- The FastAPI routes, the settings loader, ingestion, and the vector-store wrapper are
  not part of this model. The settings appear only as the default values 14000, 12000
  and 5, together with the client session defaults 10, 3500 and 2000.
- WebSearch.Search: reading the directory is an input, the sorted list of `*.md` files
  with their paths, stems and decoded text, or `None` when the directory does not exist.
  UTF-8 decoding with ignored errors is not modelled.
- ChatContext.MdInline: the `str(s)` coercion of non-string values is left out, because
  every caller passes text.
- The chat client's sending, streaming, session reset and markdown rendering of the
  response (`render_*`) are UI code and are not modelled.
