# Study planner backend: request routing and client decision logic

This project models the deterministic core of the Study-planner-AI backend.
The backend is a Flask endpoint `POST /api/chat` (backend/app.py) in front
of a `GeminiClient` (backend/gemini_client.py). The client talks to a Gemini
chat session and to a DuckDuckGo text search. The model covers the logic
around those two external calls:

- **Routing.** A blank message is rejected with 400. A message that
  mentions a study keyword and yields a non-empty topic goes to the study
  planner. Everything else goes to plain chat.
- **Topic extraction** (`extract_topic`). The model keeps the ordered
  pattern list, the split after the first occurrence, and the cleanup with
  `replace` and `strip`.
- **Search trigger** (`generate_response`). It detects `search:` and
  `/search ` on the stripped, lowered input. It then splits the *original*
  input on the first `:` or space.
- **Web search filter** (`perform_web_search`). It keeps only dictionary
  hits with a title and an href. Any exception yields `[]`.
- **Reference block.** Entries are numbered with `enumerate(..., start=1)`
  and joined by blank lines.
- **Table trimming** of a study-plan reply, and the constant fallback
  table.
- **Canned strings.** The choice among them depends on the session state
  (a chat session, or `None` after a failed configuration) and on whether
  the send failed.

The external calls are parameters:

- **Send oracle** `send: Prompt -> Reply`. It gives the reply text, or
  `Failed` for an exception. It receives the prompt as a `Prompt` value
  (study-plan, search or chat request). `PromptText` renders that value to
  the exact string `send_message` is given. Every property is stated for
  every oracle, so it also holds for an oracle that depends only on the
  rendered string.
- **Search oracle** `search: (string, nat) -> SearchFeed`. It gives the
  hits the library yields, and whether it raises afterwards.

Modules:

- `PyText` (py_text.dfy): the Python string operations the core relies on.
  These are `strip`, `lower`, `in`/`find`, `split(p, 1)[1]`,
  `replace(p, '')`, `startswith`/`endswith`, `"\n\n".join` and `str(int)`.
- `WebSearch` (web_search.dfy): `perform_web_search`.
- `Gemini` (gemini_client.dfy): `GeminiClient` with its prompts, reference
  block, trimming, fallback table and search trigger.
- `App` (app.py): `chat` and `extract_topic`.

Three behaviours of the code worth knowing:

- `replace('please', '')` and `replace('?', '')` remove every occurrence,
  not only trailing ones.
- The `/search ` query is cut at the first space of the unstripped input.
- The JSON 500 reply is unreachable for a string message, because both
  client methods catch every exception.

## Model

| member | source | states |
|---|---|---|
| `PyText.LowerIsLower` | backend/app.py:40 | after `lower()` no character is an ASCII capital |
| `PyText.Strip` | backend/gemini_client.py:99 | `strip()` is the infix of the input that follows its leading whitespace, has only whitespace after it, has no whitespace at either end, and is empty exactly when the input is all whitespace |
| `PyText.StripUnique` | backend/gemini_client.py:99 | any infix with only whitespace around it and none at its ends is the `strip()` of the text |
| `PyText.StripLower` | backend/app.py:60-61 | stripping and lowering commute, so `message.lower().strip()` is the lowered stripped message |
| `PyText.StripDropSpace` | backend/gemini_client.py:160 | dropping a leading whitespace character does not change `strip()` |
| `PyText.StripDropLeading` | backend/gemini_client.py:160 | dropping any prefix of the leading whitespace does not change `strip()` |
| `PyText.Find` | backend/gemini_client.py:103-104 | `find` gives an index where the pattern occurs with no occurrence before it, or none when it occurs nowhere |
| `PyText.AfterFirst` | backend/app.py:55 | `split(p, 1)[1]` is the suffix of the input right after an occurrence of p, with no occurrence of p starting earlier |
| `PyText.RemoveAll` | backend/app.py:57 | `replace(p, '')` leaves a text without p unchanged, never lengthens the text and introduces no character |
| `PyText.RemoveAllFirst` | backend/app.py:57 | `replace(p, '')` keeps everything before the first occurrence of p, drops that occurrence and resumes right after it |
| `PyText.RemoveAllChar` | backend/app.py:57 | `replace('?', '')` keeps every other character as many times as before and no '?' |
| `PyText.JoinAt` | backend/gemini_client.py:173 | in `sep.join(parts)` part k sits at its offset and is preceded by the separator when k > 0 |
| `PyText.NatToString` | backend/gemini_client.py:171 | `str(idx)` is a non-empty run of decimal digits without a leading zero |
| `PyText.DecimalRoundTrip` | backend/gemini_client.py:171 | reading the digits of `str(n)` back gives n |
| `WebSearch.PerformWebSearch` | backend/gemini_client.py:14-40 | the filter loop returns the kept hits of the feed in order, or `[]` when the search raises |
| `WebSearch.KeptHitsAppend` | backend/gemini_client.py:21-35 | filtering distributes over concatenation, so kept hits keep the feed's order |
| `WebSearch.KeptHitsShrinks` | backend/gemini_client.py:21-35 | the filter never returns more results than hits |
| `WebSearch.KeptHitsMembers` | backend/gemini_client.py:23-35 | a result is returned iff some hit is a dict with non-empty title and href whose body, defaulting to "", is the result's |
| `Gemini.StudyPlanPromptCarriesTopic` | backend/gemini_client.py:56-91 | the study-plan prompt contains the topic |
| `Gemini.SearchPromptCarriesInputs` | backend/gemini_client.py:175-184 | the search prompt contains the query and the whole reference block |
| `Gemini.ChatPromptEndsWithInput` | backend/gemini_client.py:199 | the chat prompt ends with the user input unchanged |
| `Gemini.BuildRefsLines` | backend/gemini_client.py:169-171 | one line per result, line i being `[i+1] title — href` then the body |
| `Gemini.RefsBlockEntry` | backend/gemini_client.py:169-173 | entry k of the block is numbered k+1, sits at its offset and follows a blank-line separator unless first |
| `Gemini.TrimToTable` | backend/gemini_client.py:99-105 | on the stripped reply: unchanged without both markers; the span from the first `<table>` through the first `</table>` when in order, which starts and ends with the markers and holds `</table>` only at its end; empty when reversed |
| `Gemini.TrimSpan` | backend/gemini_client.py:102-105 | the in-order span starts with `<table>`, ends with `</table>` and has no earlier `</table>` |
| `Gemini.TrimReversed` | backend/gemini_client.py:102-105 | when the first `</table>` precedes the first `<table>`, the slice end is at or before its start, so the slice is empty |
| `Gemini.FallbackStudyPlan` | backend/gemini_client.py:113-146 | the fallback table starts with `<table>` and ends with `</table>` |
| `Gemini.FallbackShape` | backend/gemini_client.py:115-146 | the fallback has a four-cell header and exactly four four-cell data rows, the first opening with "Foundations of " + topic |
| `Gemini.FallbackTopicOnlyFirstCell` | backend/gemini_client.py:122-146 | two fallback tables differ at most in the first cell of the first data row |
| `Gemini.TriggerCharInInput` | backend/gemini_client.py:157-160 | the ':' or ' ' seen in the lowered stripped input occurs in the original input, so the split is defined |
| `Gemini.TriggerSplit` | backend/gemini_client.py:152-160 | when the prefix's last character does not occur earlier, the split gives exactly the text after the prefix |
| `Gemini.ColonTrigger` | backend/gemini_client.py:157-158 | for a `search:` input the first ':' is the prefix's own, so the split gives the text after the prefix |
| `Gemini.SlashTrigger` | backend/gemini_client.py:159-160 | for a `/search ` input the split gives the text after the prefix when no space precedes it, and a text that strips to the whole input when the whitespace before the prefix holds a space (the split cuts at that space) |
| `Gemini.SearchQuery` | backend/gemini_client.py:152-160 | a query exists iff the lowered stripped input opens with `search:` or `/search `; for `search:` (any case, any leading whitespace) it is the stripped text after the prefix; for `/search ` with no space before it, likewise; for `/search ` whose leading whitespace holds a space, the whole stripped input, prefix included |
| `Gemini.GeminiClient.constructor` | backend/gemini_client.py:44-51 | the session is ready when configuration succeeds, degraded otherwise |
| `Gemini.GeminiClient.GenerateStudyPlan` | backend/gemini_client.py:53-111 | fallback table when degraded or the send fails, otherwise the trimmed reply |
| `Gemini.GeminiClient.GenerateResponse` | backend/gemini_client.py:148-209 | a non-empty triggered query takes the search path, anything else the chat path (trouble message when degraded, reply or error message otherwise) |
| `Gemini.GeminiClient.AnswerSearch` | backend/gemini_client.py:162-187 | no results gives the no-results message; a degraded session the error message; otherwise the reply to the search prompt, or the error message |
| `Gemini.StudyPlanIsTable` | backend/gemini_client.py:93-111 | the study plan starts with `<table>` and ends with `</table>` when degraded, when the send fails, and when the reply has its markers in order |
| `Gemini.StudyPlanDegradedIgnoresSend` | backend/gemini_client.py:93-94 | a degraded client returns the fallback table whatever the send oracle |
| `Gemini.StudyPlanUntrimmedReply` | backend/gemini_client.py:99-107 | a reply without `</table>` is returned stripped and otherwise as is |
| `Gemini.ResponseNoResults` | backend/gemini_client.py:162-166 | a non-empty query with no results gives exactly the no-results message, whatever the session and send |
| `Gemini.ResponseDegraded` | backend/gemini_client.py:162-209 | a degraded client answers with one of the three canned messages, independent of the send oracle |
| `Gemini.SearchWithoutQueryChats` | backend/gemini_client.py:157-162 | `search:` with nothing after it falls through to plain chat |
| `Gemini.ResponseSearchPrompt` | backend/gemini_client.py:175-187 | a ready client with results sends a prompt that carries the query and reference block and answers with the reply |
| `App.StudyRequestLastThree` | backend/app.py:24 | the keyword check holds iff the lowered message contains "plan for", "learn" or "study" |
| `App.FirstMatch` | backend/app.py:53-58 | the index of the first pattern that occurs, none earlier occurring; none when no pattern occurs |
| `App.ExtractTopic` | backend/app.py:38-61 | the pattern loop with early return computes `Topic(message)` |
| `App.TopicIsLower` | backend/app.py:40-61 | the extracted topic has no capital letter |
| `App.ShadowedPatternsNeverSelected` | backend/app.py:43-58 | 'create a plan for ' and 'i want to learn ' are never the selected pattern |
| `App.ShadowedBy` | backend/app.py:43-58 | a pattern made of some text followed by an earlier pattern is never the first match |
| `App.MatchedTopicIsClean` | backend/app.py:55-58 | a topic cut after a pattern has no '?' and no surrounding whitespace |
| `App.UnmatchedTopicIsMessage` | backend/app.py:60-61 | with no pattern the topic is the lowered stripped message, empty only for a blank message |
| `App.RouteMessage` | backend/app.py:16-32 | a request is rejected iff its message is missing or all whitespace; a study plan is for a study request, with its non-empty extracted topic; chat gets the non-blank stripped message |
| `App.StudyPlanRoute` | backend/app.py:24-28 | a study plan is produced iff the stripped message is a non-blank study request with a non-empty topic, and that topic is lower case |
| `App.EmptyTopicFallsBackToChat` | backend/app.py:26-30 | a study request with an empty topic is answered as chat with the stripped message |
| `App.HandleChat` | backend/app.py:14-36 | the handler returns 400 for a blank message, otherwise 200 with the study plan or chat answer it routes to |
| `App.BlankMessageNeverReachesClient` | backend/app.py:16-20 | a blank message gets 400 "No message provided" whatever the session and oracles |
| `App.ReplyStatus` | backend/app.py:19-36 | status 400 iff the message is blank, 200 otherwise; the 500 reply never occurs |

## Left out

- Flask setup, `render_template`, `request.get_json` and `jsonify` are HTTP plumbing. The endpoint is a method from an optional message string to a status, key and text.
- A `message` field that is not a string (JSON null, a number) is not modelled. `.strip()` would raise outside the `try`, and Flask would answer with its own error page.
- `genai.configure`, `GenerativeModel`, `start_chat` and `send_message` are foreign SDK calls. Configuration success is the constructor's boolean, and each send is the `send` oracle.
- The conversation history the SDK session accumulates is hidden external state. So is request interleaving on the shared global client. Each call sees a fixed oracle.
- `DDGS().text` is a network call, represented by the `search` oracle. The model does not enforce the cap of `max_results=6`; the oracle is given 6.
- `load_dotenv`, environment reads and all `print` logging are I/O.
- `lower()` lowers the ASCII letters 'A'..'Z' only; Python's Unicode case mapping of other letters is not modelled. `strip()` uses the full set of characters for which Python's `str.isspace()` holds.
- A search hit whose title, href or body is a truthy non-string (a number, a list) is kept by `perform_web_search` and later formatted with `str()`. The model's hits carry strings only, because the rendering of arbitrary Python values by `str()` is outside the model.
- Gemini.FallbackStudyPlan: the literal table is rendered through `Table` with one tag per line. It is not written out as one literal string.
- Gemini.StudyPlanPromptCarriesTopic: the prompt wording is kept verbatim in `StudyPlanPrompt`. Only the containment of the topic is proved about it; the same holds for the search and chat prompts.
