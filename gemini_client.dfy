/**
 * `GeminiClient` in backend/gemini_client.py: the decisions the client
 * makes around its two external calls. The chat session is either ready
 * or degraded (configuration failed at construction); a send on the ready
 * session is an oracle that returns reply text or fails, and the web
 * search is the oracle of module WebSearch.
 */
module Gemini {
  import opened PyText
  import opened WebSearch

  // ---------------------------------------------------------------------
  // The session and its oracle

  /** `self.chat` after `__init__`: a chat session, or `None`. */
  datatype SessionState = Ready | Degraded

  /** `chat.send_message(prompt).text`: the reply text, or an exception. */
  datatype Reply = Replied(text: string) | Failed

  /** The three prompts the client composes; `PromptText` is the string it
      sends for each. */
  datatype Prompt =
    | StudyPlanRequest(topic: string)
    | SearchRequest(query: string, refsBlock: string)
    | ChatRequest(userInput: string)

  const NoResultsMessage: string :=
    "I could not retrieve web results right now. Please try again."
  const TroubleMessage: string :=
    "I'm sorry, I'm having trouble connecting right now. Please try again later."
  const ErrorMessage: string :=
    "I'm sorry, I encountered an error processing your request. Please try again."

  /** The result cap handed to the search library. */
  const MaxSearchResults: nat := 6

  // ---------------------------------------------------------------------
  // Prompts

  const StudyPlanIntro: string :=
    "\nYou are an AI-powered study planner. Generate a study plan for the topic: \""

  /** The study-plan prompt: the topic is quoted on its first line, named
      again in the content requirements and repeated on its last line. */
  function StudyPlanPrompt(topic: string): string {
    StudyPlanIntro + topic + StudyPlanRequirements(topic)
  }

  function StudyPlanRequirements(topic: string): string {
    "\"\n"
    + "\nCRITICAL REQUIREMENTS:\n"
    + "- Output ONLY a valid HTML <table> element\n"
    + "- Use <tr>, <th>, and <td> elements\n"
    + "- NO markdown formatting, asterisks, or plain text separators\n"
    + "- NO text outside the table tags\n"
    + "- Table must have 4 columns: Topic | Resources | What You'll Learn | Hours of Learning\n"
    + "\nCONTENT REQUIREMENTS:\n"
    + "- Break \"" + topic + "\" into exactly 4-6 meaningful subtopics\n"
    + "- For each subtopic provide:\n"
    + "  \U{2022} Topic: Clear subtopic name\n"
    + "  \U{2022} Resources: Specific books, courses, or websites (real resources)\n"
    + "  \U{2022} What You'll Learn: 1-2 concise learning outcomes\n"
    + "  \U{2022} Hours of Learning: Realistic study time (e.g., \"3 hrs\", \"5 hrs\")\n"
    + "\nEXAMPLE FORMAT (DO NOT COPY CONTENT):\n"
    + "<table>\n<tr>\n<th>Topic</th>\n<th>Resources</th>\n<th>What You'll Learn</th>\n"
    + "<th>Hours of Learning</th>\n</tr>\n<tr>\n<td>Subtopic 1</td>\n"
    + "<td>Book Name, Online Course</td>\n<td>Key skill, Core concept</td>\n<td>4 hrs</td>\n"
    + "</tr>\n</table>\n"
    + "\nGenerate the study plan for: " + topic + "\n"
  }

  const SearchInstructions: string :=
    "You are an AI research assistant. Use the provided web search results to answer the user query. "
    + "Synthesize concisely, cite sources inline like [1], [2] where relevant, and include a brief summary."

  const QueryHeading: string := "\n" + SearchInstructions + "\n\n" + "Query: "
  const ResultsHeading: string := "\n\n" + "Search Results:\n"

  /** The search prompt: instructions, the query, then the reference block. */
  function SearchPrompt(query: string, refsBlock: string): string {
    QueryHeading + query + ResultsHeading + refsBlock + "\n"
  }

  const StyleInstructions: string :=
    "You are a friendly study planner AI assistant. "
    + "Explain things in a structured but simple way, "
    + "using headings, bullet points, and short paragraphs. "
    + "Avoid long blocks of text. "
    + "Use emojis occasionally to keep it engaging for students. "
    + "If someone asks about creating a study plan, suggest they specify the topic they want to learn."

  function ChatPrompt(userInput: string): string {
    StyleInstructions + "\nUser: " + userInput
  }

  function PromptText(p: Prompt): string {
    match p
    case StudyPlanRequest(topic) => StudyPlanPrompt(topic)
    case SearchRequest(query, refsBlock) => SearchPrompt(query, refsBlock)
    case ChatRequest(userInput) => ChatPrompt(userInput)
  }

  lemma ContainsConcat(a: string, b: string, c: string)
    ensures Contains(a + b + c, b)
  {
    assert (a + b + c)[|a|..|a| + |b|] == b;
    assert OccursAt(a + b + c, b, |a|);
    ContainsAt(a + b + c, b, |a|);
  }

  /** The study-plan prompt carries the topic. */
  lemma StudyPlanPromptCarriesTopic(topic: string)
    ensures Contains(StudyPlanPrompt(topic), topic)
  {
    ContainsConcat(StudyPlanIntro, topic, StudyPlanRequirements(topic));
  }

  /** The search prompt carries the query and the whole reference block. */
  lemma SearchPromptCarriesInputs(query: string, refsBlock: string)
    ensures Contains(SearchPrompt(query, refsBlock), query)
    ensures Contains(SearchPrompt(query, refsBlock), refsBlock)
  {
    var tail := ResultsHeading + refsBlock + "\n";
    assert SearchPrompt(query, refsBlock) == QueryHeading + query + tail;
    ContainsConcat(QueryHeading, query, tail);
    ContainsConcat(QueryHeading + query + ResultsHeading, refsBlock, "\n");
  }

  /** The plain-chat prompt ends with the user's input, unchanged. */
  lemma ChatPromptEndsWithInput(userInput: string)
    ensures EndsWith(ChatPrompt(userInput), userInput)
  {
  }

  // ---------------------------------------------------------------------
  // The reference block of a search answer

  /** Entry `index` of the reference block: `[index] title — href`, then
      the body on the next line. */
  function RefEntry(index: nat, r: SearchResult): string {
    "[" + NatToString(index) + "] " + r.title + " \U{2014} " + r.href + "\n" + r.body
  }

  function RefEntries(results: seq<SearchResult>): seq<string> {
    seq(|results|, i requires 0 <= i < |results| => RefEntry(i + 1, results[i]))
  }

  const RefsSeparator: string := "\n\n"

  function RefsBlock(results: seq<SearchResult>): string {
    Join(RefEntries(results), RefsSeparator)
  }

  /** The `enumerate(web_results, start=1)` loop that builds `refs_lines`. */
  method BuildRefsLines(results: seq<SearchResult>) returns (lines: seq<string>)
    ensures |lines| == |results|
    ensures forall i :: 0 <= i < |results| ==> lines[i] == RefEntry(i + 1, results[i])
  {
    lines := [];
    var idx := 1;
    for i := 0 to |results|
      invariant idx == i + 1 && |lines| == i
      invariant forall k :: 0 <= k < i ==> lines[k] == RefEntry(k + 1, results[k])
    {
      var item := results[i];
      lines := lines + ["[" + NatToString(idx) + "] " + item.title + " \U{2014} " + item.href + "\n" + item.body];
      idx := idx + 1;
    }
  }

  /** Entry `k` of the block, numbered `k + 1`, stands at its offset, after
      a blank-line separator unless it is the first. */
  lemma RefsBlockEntry(results: seq<SearchResult>, k: nat)
    requires k < |results|
    ensures RefEntries(results)[k] == RefEntry(k + 1, results[k])
    ensures var o := Offset(RefEntries(results), RefsSeparator, k);
      var e := RefEntries(results)[k];
      o + |e| <= |RefsBlock(results)| && RefsBlock(results)[o..o + |e|] == e
      && (k > 0 ==> 2 <= o && RefsBlock(results)[o - 2..o] == RefsSeparator)
  {
    JoinAt(RefEntries(results), RefsSeparator, k);
  }

  // ---------------------------------------------------------------------
  // Trimming a reply to its table

  const TableOpen: string := "<table>"
  const TableClose: string := "</table>"

  /** Python's `s[a:b]` for in-range bounds: empty when `b <= a`. */
  function Slice(s: string, a: nat, b: nat): string
    requires a <= |s| && b <= |s|
  {
    if a < b then s[a..b] else ""
  }

  /** The trimming of a study-plan reply, on the stripped reply: unchanged
      when a marker is missing; the span from the first `<table>` through
      the first `</table>` when they come in that order, a span that starts
      and ends with the markers and holds `</table>` only at its end; and
      nothing when the first `</table>` comes first. */
  function TrimToTable(reply: string): (r: string)
    ensures var s := Strip(reply);
      !(Contains(s, TableOpen) && Contains(s, TableClose)) ==> r == s
    ensures var s := Strip(reply);
      (Contains(s, TableOpen) && Contains(s, TableClose) &&
       Find(s, TableOpen).value < Find(s, TableClose).value) ==>
        r == s[Find(s, TableOpen).value..Find(s, TableClose).value + |TableClose|] &&
        StartsWith(r, TableOpen) && EndsWith(r, TableClose) &&
        Find(r, TableClose) == Some(|r| - |TableClose|)
    ensures var s := Strip(reply);
      (Contains(s, TableOpen) && Contains(s, TableClose) &&
       Find(s, TableClose).value < Find(s, TableOpen).value) ==> r == ""
  {
    TrimCases(Strip(reply));
    TrimStripped(Strip(reply))
  }

  /** The trimming proper, on an already stripped reply. */
  function TrimStripped(s: string): string {
    if Contains(s, TableOpen) && Contains(s, TableClose) then
      Slice(s, Find(s, TableOpen).value, Find(s, TableClose).value + |TableClose|)
    else
      s
  }

  lemma TrimCases(s: string)
    ensures !(Contains(s, TableOpen) && Contains(s, TableClose)) ==> TrimStripped(s) == s
    ensures (Contains(s, TableOpen) && Contains(s, TableClose) &&
             Find(s, TableOpen).value < Find(s, TableClose).value) ==>
      var r := TrimStripped(s);
      r == s[Find(s, TableOpen).value..Find(s, TableClose).value + |TableClose|] &&
      StartsWith(r, TableOpen) && EndsWith(r, TableClose) &&
      Find(r, TableClose) == Some(|r| - |TableClose|)
    ensures (Contains(s, TableOpen) && Contains(s, TableClose) &&
             Find(s, TableClose).value < Find(s, TableOpen).value) ==> TrimStripped(s) == ""
  {
    if Contains(s, TableOpen) && Contains(s, TableClose) {
      var start := Find(s, TableOpen).value;
      var end := Find(s, TableClose).value + |TableClose|;
      if start < end - |TableClose| {
        TrimSpan(s, start, end);
      } else if end - |TableClose| < start {
        TrimReversed(s, start, end);
      }
    }
  }

  lemma InfixOfInfix(s: string, a: nat, b: nat, i: nat, j: nat)
    requires a <= b <= |s| && i <= j <= b - a
    ensures s[a..b][i..j] == s[a + i..a + j]
  {
    forall m | 0 <= m < j - i ensures s[a..b][i..j][m] == s[a + i..a + j][m] {
      assert s[a..b][i..j][m] == s[a..b][i + m] == s[a + i + m];
    }
  }

  /** When the first `<table>` comes first, the span from it through the
      first `</table>` holds exactly one `</table>`, at its end. */
  lemma TrimSpan(s: string, start: nat, end: nat)
    requires 8 <= end <= |s| && start < end - 8
    requires OccursAt(s, TableOpen, start) && OccursAt(s, TableClose, end - 8)
    requires forall j :: 0 <= j < end - 8 ==> !OccursAt(s, TableClose, j)
    ensures var r := s[start..end];
      StartsWith(r, TableOpen) && EndsWith(r, TableClose) &&
      Find(r, TableClose) == Some(|r| - |TableClose|)
  {
    var r := s[start..end];
    InfixOfInfix(s, start, end, 0, 7);
    InfixOfInfix(s, start, end, |r| - 8, |r|);
    TrimSpanNoEarlierClose(s, start, end);
    FindAt(r, TableClose, |r| - 8);
  }

  lemma TrimSpanNoEarlierClose(s: string, start: nat, end: nat)
    requires 8 <= end <= |s| && start < end - 8
    requires forall j :: 0 <= j < end - 8 ==> !OccursAt(s, TableClose, j)
    ensures forall k :: 0 <= k < end - start - 8 ==> !OccursAt(s[start..end], TableClose, k)
  {
    forall k | 0 <= k < end - start - 8 ensures !OccursAt(s[start..end], TableClose, k) {
      InfixOfInfix(s, start, end, k, k + 8);
      assert !OccursAt(s, TableClose, start + k);
    }
  }

  /** When the first `</table>` comes first, the first `<table>` starts at
      or after its end: the only '<' of `</table>` is its first character. */
  lemma TrimReversed(s: string, start: nat, end: nat)
    requires 8 <= end && end - 8 < start
    requires OccursAt(s, TableOpen, start) && OccursAt(s, TableClose, end - 8)
    ensures end <= start
  {
    var j := end - 8;
    forall m | j < m < end ensures s[m] != '<' {
      assert s[m] == s[j..end][m - j];
    }
    assert s[start] == s[start..start + 7][0];
  }

  // ---------------------------------------------------------------------
  // The fallback table

  function Cell(tag: string, text: string): string {
    "<" + tag + ">" + text + "</" + tag + ">\n"
  }

  function Cells(tag: string, texts: seq<string>): string
    decreases |texts|
  {
    if texts == [] then "" else Cell(tag, texts[0]) + Cells(tag, texts[1..])
  }

  function Row(tag: string, texts: seq<string>): string {
    "<tr>\n" + Cells(tag, texts) + "</tr>\n"
  }

  function DataRows(rows: seq<seq<string>>): string
    decreases |rows|
  {
    if rows == [] then "" else Row("td", rows[0]) + DataRows(rows[1..])
  }

  /** An HTML table with one header row of `<th>` cells and data rows of
      `<td>` cells, one tag per line. */
  function Table(header: seq<string>, rows: seq<seq<string>>): string {
    "<table>\n" + Row("th", header) + DataRows(rows) + "</table>"
  }

  const FallbackHeader: seq<string> :=
    ["Topic", "Resources", "What You'll Learn", "Hours of Learning"]

  function FoundationsRow(topic: string): seq<string> {
    ["Foundations of " + topic, "Online tutorials, Documentation", "Basic concepts and terminology", "3 hrs"]
  }

  const CorePrinciplesRow: seq<string> :=
    ["Core Principles", "Textbooks, Video courses", "Fundamental principles and methods", "5 hrs"]
  const PracticalApplicationRow: seq<string> :=
    ["Practical Application", "Hands-on projects, Exercises", "Real-world problem solving", "4 hrs"]
  const AdvancedTopicsRow: seq<string> :=
    ["Advanced Topics", "Research papers, Expert blogs", "Advanced techniques and best practices", "6 hrs"]

  function FallbackRows(topic: string): seq<seq<string>> {
    [FoundationsRow(topic), CorePrinciplesRow, PracticalApplicationRow, AdvancedTopicsRow]
  }

  /** `_fallback_study_plan(topic)`: the literal table, rendered one tag per
      line exactly as `Table` lays it out. */
  function FallbackStudyPlan(topic: string): (r: string)
    ensures StartsWith(r, TableOpen) && EndsWith(r, TableClose)
  {
    var r := Table(FallbackHeader, FallbackRows(topic));
    assert r[..|TableOpen|] == TableOpen;
    r
  }

  /** The fallback has one four-cell header row and exactly four four-cell
      data rows, the first of which opens with the topic. */
  lemma FallbackShape(topic: string)
    ensures |FallbackHeader| == 4 && |FallbackRows(topic)| == 4
    ensures forall i :: 0 <= i < 4 ==> |FallbackRows(topic)[i]| == 4
    ensures FallbackRows(topic)[0][0] == "Foundations of " + topic
  {
  }

  /** Two fallback tables differ at most in the first cell of the first data row. */
  lemma FallbackTopicOnlyFirstCell(topic: string, other: string)
    ensures FallbackRows(topic)[0][1..] == FallbackRows(other)[0][1..]
    ensures FallbackRows(topic)[1..] == FallbackRows(other)[1..]
  {
  }

  // ---------------------------------------------------------------------
  // The search trigger

  /** The search query of `generate_response`: the input is lowered and
      stripped to look for a `search:` or `/search ` prefix, and the query
      is what follows the first ':' (respectively ' ') of the ORIGINAL input,
      stripped. `None` when there is no trigger. A `/search ` command typed
      after leading spaces is cut at the first of those spaces, so its query
      is the whole stripped input, prefix included. */
  function SearchQuery(text: string): (r: Option<string>)
    ensures r.Some? <==>
      StartsWith(Lower(Strip(text)), "search:") || StartsWith(Lower(Strip(text)), "/search ")
    ensures StartsWith(Lower(Strip(text)), "search:") ==>
      r == Some(Strip(text[StripStart(text) + 7..]))
    ensures (StartsWith(Lower(Strip(text)), "/search ") &&
             forall j :: 0 <= j < StripStart(text) ==> text[j] != ' ') ==>
      r == Some(Strip(text[StripStart(text) + 8..]))
    ensures (StartsWith(Lower(Strip(text)), "/search ") &&
             exists j :: 0 <= j < StripStart(text) && text[j] == ' ') ==>
      r == Some(Strip(text))
  {
    var lower := Lower(Strip(text));
    if StartsWith(lower, "search:") then
      ColonTrigger(text);
      Some(Strip(AfterFirst(text, ":")))
    else if StartsWith(lower, "/search ") then
      SlashTrigger(text);
      Some(Strip(AfterFirst(text, " ")))
    else
      None
  }

  /** A non-letter found in the lowered, stripped input is a character of
      the input itself. */
  lemma TriggerCharInInput(text: string, i: nat, c: char)
    requires i < |Strip(text)| && Lower(Strip(text))[i] == c && !('a' <= c <= 'z')
    ensures Contains(text, [c])
  {
    var s := Strip(text);
    assert s[i] == c;
    assert s[i] in text[StripStart(text)..StripEnd(text)];
    InfixChars(text, StripStart(text), StripEnd(text), c);
    ContainsChar(text, c);
  }

  /** The stripped, lowered input opens with `prefix`, whose last character
      `c` is the first `c` of the input: what follows the first `c` is what
      follows the prefix. */
  lemma TriggerSplit(text: string, prefix: string)
    requires |prefix| > 0 && StartsWith(Lower(Strip(text)), prefix)
    requires !IsUpper(prefix[|prefix| - 1]) && !('a' <= prefix[|prefix| - 1] <= 'z')
    requires forall j :: 0 <= j < |prefix| - 1 ==> prefix[j] != prefix[|prefix| - 1]
    requires forall j :: 0 <= j < StripStart(text) ==> text[j] != prefix[|prefix| - 1]
    ensures Contains(text, [prefix[|prefix| - 1]])
    ensures AfterFirst(text, [prefix[|prefix| - 1]]) == text[StripStart(text) + |prefix|..]
  {
    var a, n, c := StripStart(text), |prefix|, prefix[|prefix| - 1];
    var lower := Lower(Strip(text));
    assert lower[n - 1] == prefix[n - 1];
    assert text[a + n - 1] == Strip(text)[n - 1];
    forall j | 0 <= j < a + n - 1 ensures text[j] != c {
      if a <= j {
        assert lower[j - a] == prefix[j - a];
        assert text[j] == Strip(text)[j - a];
      }
    }
    FindCharAt(text, c, a + n - 1);
  }

  /** `search:`: the leading whitespace holds no ':', so the first ':' is
      the prefix's own. */
  lemma ColonTrigger(text: string)
    requires StartsWith(Lower(Strip(text)), "search:")
    ensures !StartsWith(Lower(Strip(text)), "/search ")
    ensures Contains(text, ":")
    ensures AfterFirst(text, ":") == text[StripStart(text) + 7..]
  {
    assert Lower(Strip(text))[0] == 's';
    TriggerSplit(text, "search:");
  }

  /** `/search `: the first ' ' is the prefix's own when no space precedes
      the prefix, and the leading space otherwise. */
  lemma SlashTrigger(text: string)
    requires StartsWith(Lower(Strip(text)), "/search ")
    ensures !StartsWith(Lower(Strip(text)), "search:")
    ensures Contains(text, " ")
    ensures (forall j :: 0 <= j < StripStart(text) ==> text[j] != ' ') ==>
      AfterFirst(text, " ") == text[StripStart(text) + 8..]
    ensures (exists j :: 0 <= j < StripStart(text) && text[j] == ' ') ==>
      Strip(AfterFirst(text, " ")) == Strip(text)
  {
    assert Lower(Strip(text))[0] == '/';
    TriggerCharInInput(text, 7, ' ');
    if forall j :: 0 <= j < StripStart(text) ==> text[j] != ' ' {
      SlashAfterPrefix(text);
    }
    if exists j :: 0 <= j < StripStart(text) && text[j] == ' ' {
      var j :| 0 <= j < StripStart(text) && text[j] == ' ';
      SlashAfterLeadingSpace(text, j);
    }
  }

  /** A space among the leading whitespace is the first ' ', and what
      follows it strips to the stripped input. */
  lemma SlashAfterLeadingSpace(text: string, j: nat)
    requires j < StripStart(text) && text[j] == ' '
    ensures Contains(text, " ") && Strip(AfterFirst(text, " ")) == Strip(text)
  {
    assert text[j..j + 1] == " ";
    ContainsAt(text, " ", j);
    StripDropLeading(text, Find(text, " ").value + 1);
  }

  lemma SlashAfterPrefix(text: string)
    requires StartsWith(Lower(Strip(text)), "/search ")
    requires forall j :: 0 <= j < StripStart(text) ==> text[j] != ' '
    ensures Contains(text, " ") && AfterFirst(text, " ") == text[StripStart(text) + 8..]
  {
    var p := "/search ";
    assert p[7] == ' ';
    assert forall j :: 0 <= j < 7 ==> p[j] != ' ';
    TriggerSplit(text, p);
  }

  // ---------------------------------------------------------------------
  // The client

  /** `response.text` on the search and chat paths: a failed send is caught
      and answered with the generic error message. */
  function ReplyText(reply: Reply): string {
    match reply
    case Replied(t) => t
    case Failed => ErrorMessage
  }

  /** `generate_study_plan`: the fallback table when the session is degraded
      or the send fails, the trimmed reply otherwise. */
  function StudyPlanFor(session: SessionState, topic: string, send: Prompt -> Reply): string {
    if session == Degraded then FallbackStudyPlan(topic)
    else
      match send(StudyPlanRequest(topic))
      case Failed => FallbackStudyPlan(topic)
      case Replied(t) => TrimToTable(t)
  }

  /** The plain-chat path of `generate_response`. */
  function ChatAnswer(session: SessionState, userInput: string, send: Prompt -> Reply): string {
    if session == Degraded then TroubleMessage
    else ReplyText(send(ChatRequest(userInput)))
  }

  /** The search path of `generate_response` for a non-empty query. */
  function SearchAnswer(session: SessionState, query: string, results: seq<SearchResult>, send: Prompt -> Reply): string {
    if results == [] then NoResultsMessage
    else if session == Degraded then ErrorMessage
    else ReplyText(send(SearchRequest(query, RefsBlock(results))))
  }

  /** `generate_response`: a triggered, non-empty query is searched for;
      everything else is plain chat. */
  function ResponseFor(session: SessionState, userInput: string, send: Prompt -> Reply,
                       search: (string, nat) -> SearchFeed): string {
    var query := SearchQuery(userInput);
    if query.Some? && query.value != "" then
      SearchAnswer(session, query.value, SearchOutcome(search(query.value, MaxSearchResults)), send)
    else
      ChatAnswer(session, userInput, send)
  }

  /** The client: whether `__init__` obtained a chat session is fixed for
      its lifetime. */
  class GeminiClient {
    const session: SessionState

    /** `__init__`: configuring the SDK either succeeds or is caught. */
    constructor(configured: bool)
      ensures session == (if configured then Ready else Degraded)
    {
      session := if configured then Ready else Degraded;
    }

    method GenerateStudyPlan(topic: string, send: Prompt -> Reply) returns (plan: string)
      ensures plan == StudyPlanFor(session, topic, send)
    {
      var prompt := StudyPlanRequest(topic);
      if session == Degraded {
        return FallbackStudyPlan(topic);
      }
      var reply := send(prompt);
      if reply.Failed? {
        return FallbackStudyPlan(topic);
      }
      var text := Strip(reply.text);
      if Contains(text, TableOpen) && Contains(text, TableClose) {
        var start := Find(text, TableOpen).value;
        var end := Find(text, TableClose).value + 8;
        text := Slice(text, start, end);
      }
      return text;
    }

    method GenerateResponse(userInput: string, send: Prompt -> Reply, search: (string, nat) -> SearchFeed)
      returns (answer: string)
      ensures answer == ResponseFor(session, userInput, send, search)
    {
      var query := SearchQuery(userInput);
      if query.Some? && query.value != "" {
        answer := AnswerSearch(query.value, send, search);
        return;
      }
      var textWithStyle := ChatRequest(userInput);
      if session == Degraded {
        return TroubleMessage;
      }
      var reply := send(textWithStyle);
      return if reply.Replied? then reply.text else ErrorMessage;
    }

    /** The search path of `generate_response`, for a non-empty query. */
    method AnswerSearch(query: string, send: Prompt -> Reply, search: (string, nat) -> SearchFeed)
      returns (answer: string)
      ensures answer == SearchAnswer(session, query, SearchOutcome(search(query, MaxSearchResults)), send)
    {
      var results := PerformWebSearch(query, MaxSearchResults, search);
      if results == [] {
        return NoResultsMessage;
      }
      var lines := BuildRefsLines(results);
      assert lines == RefEntries(results);
      var composed := SearchRequest(query, Join(lines, RefsSeparator));
      if session == Degraded {
        return ErrorMessage;
      }
      var reply := send(composed);
      return if reply.Replied? then reply.text else ErrorMessage;
    }
  }

  // ---------------------------------------------------------------------
  // What the client promises

  /** The study plan is a table whenever it is the fallback, and whenever
      the stripped reply holds `<table>` before its first `</table>`. */
  lemma StudyPlanIsTable(session: SessionState, topic: string, send: Prompt -> Reply)
    requires session == Degraded || send(StudyPlanRequest(topic)).Failed? ||
      (var s := Strip(send(StudyPlanRequest(topic)).text);
       Contains(s, TableOpen) && Contains(s, TableClose) && Find(s, TableOpen).value < Find(s, TableClose).value)
    ensures StartsWith(StudyPlanFor(session, topic, send), TableOpen)
    ensures EndsWith(StudyPlanFor(session, topic, send), TableClose)
  {
  }

  /** A degraded client's study plan does not depend on the send oracle. */
  lemma StudyPlanDegradedIgnoresSend(topic: string, send: Prompt -> Reply, other: Prompt -> Reply)
    ensures StudyPlanFor(Degraded, topic, send) == StudyPlanFor(Degraded, topic, other)
    ensures StudyPlanFor(Degraded, topic, send) == FallbackStudyPlan(topic)
  {
  }

  /** A reply without both markers comes back stripped and otherwise as is. */
  lemma StudyPlanUntrimmedReply(topic: string, send: Prompt -> Reply)
    requires send(StudyPlanRequest(topic)).Replied?
    requires !Contains(Strip(send(StudyPlanRequest(topic)).text), TableClose)
    ensures StudyPlanFor(Ready, topic, send) == Strip(send(StudyPlanRequest(topic)).text)
  {
  }

  /** A non-empty query the search finds nothing for is answered with the
      no-results message, whatever the session and the send oracle. */
  lemma ResponseNoResults(session: SessionState, userInput: string, send: Prompt -> Reply,
                          search: (string, nat) -> SearchFeed)
    requires SearchQuery(userInput).Some? && SearchQuery(userInput).value != ""
    requires SearchOutcome(search(SearchQuery(userInput).value, MaxSearchResults)) == []
    ensures ResponseFor(session, userInput, send, search) == NoResultsMessage
  {
  }

  /** A degraded client answers with one of the three canned messages and
      never depends on the send oracle. */
  lemma ResponseDegraded(userInput: string, send: Prompt -> Reply, other: Prompt -> Reply,
                         search: (string, nat) -> SearchFeed)
    ensures ResponseFor(Degraded, userInput, send, search) == ResponseFor(Degraded, userInput, other, search)
    ensures ResponseFor(Degraded, userInput, send, search) in {NoResultsMessage, ErrorMessage, TroubleMessage}
  {
  }

  /** `search:` with nothing after it is plain chat. */
  lemma SearchWithoutQueryChats(session: SessionState, userInput: string, send: Prompt -> Reply,
                                search: (string, nat) -> SearchFeed)
    requires Lower(Strip(userInput)) == "search:"
    ensures ResponseFor(session, userInput, send, search) == ChatAnswer(session, userInput, send)
  {
    assert |Strip(userInput)| == 7;
    StripTail(userInput, StripStart(userInput) + 7);
  }

  /** A ready client with search results sends the search prompt for the
      query and the reference block, and answers with the reply. */
  lemma ResponseSearchPrompt(userInput: string, send: Prompt -> Reply, search: (string, nat) -> SearchFeed)
    requires SearchQuery(userInput).Some? && SearchQuery(userInput).value != ""
    requires SearchOutcome(search(SearchQuery(userInput).value, MaxSearchResults)) != []
    ensures var q := SearchQuery(userInput).value;
      var p := SearchRequest(q, RefsBlock(SearchOutcome(search(q, MaxSearchResults))));
      Contains(PromptText(p), q) && Contains(PromptText(p), p.refsBlock) &&
      ResponseFor(Ready, userInput, send, search) == ReplyText(send(p))
  {
    var q := SearchQuery(userInput).value;
    SearchPromptCarriesInputs(q, RefsBlock(SearchOutcome(search(q, MaxSearchResults))));
  }
}
