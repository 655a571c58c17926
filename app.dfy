/**
 * backend/app.py: the `/api/chat` endpoint and `extract_topic`. A message
 * is rejected when blank, routed to the study planner when it mentions one
 * of the study keywords and a topic can be extracted from it, and answered
 * as plain chat otherwise.
 */
module App {
  import opened PyText
  import opened WebSearch
  import opened Gemini

  // ---------------------------------------------------------------------
  // Keyword routing

  const StudyKeywords: seq<string> := ["study plan", "plan for", "learn", "study"]

  /** `any(keyword in user_message.lower() for keyword in [...])` */
  predicate IsStudyRequest(message: string) {
    exists i :: 0 <= i < |StudyKeywords| && Contains(Lower(message), StudyKeywords[i])
  }

  /** 'study plan' contains 'study', so the first keyword never decides
      anything: the check is the same with the last three keywords only. */
  lemma StudyRequestLastThree(message: string)
    ensures IsStudyRequest(message) <==>
      Contains(Lower(message), "plan for") || Contains(Lower(message), "learn") ||
      Contains(Lower(message), "study")
  {
    var lower := Lower(message);
    assert StudyKeywords[1] == "plan for" && StudyKeywords[2] == "learn" && StudyKeywords[3] == "study";
    if Contains(lower, StudyKeywords[0]) {
      assert StudyKeywords[0] == "study" + " plan";
      ContainsInfix(lower, "study", " plan");
    }
  }

  // ---------------------------------------------------------------------
  // extract_topic

  const TopicPatterns: seq<string> :=
    ["study plan for ", "plan for ", "learn ", "study ", "create a plan for ", "i want to learn ", "help me with "]

  /** The index of the first of `patterns[i..]` that occurs in `s`, if any. */
  function FirstMatch(s: string, patterns: seq<string>, i: nat): (r: Option<nat>)
    requires i <= |patterns|
    ensures r.Some? ==> i <= r.value < |patterns| && Contains(s, patterns[r.value])
    ensures r.Some? ==> forall j :: i <= j < r.value ==> !Contains(s, patterns[j])
    ensures r.None? ==> forall j :: i <= j < |patterns| ==> !Contains(s, patterns[j])
    decreases |patterns| - i
  {
    if i == |patterns| then None
    else if Contains(s, patterns[i]) then Some(i)
    else FirstMatch(s, patterns, i + 1)
  }

  /** The cleanup of a matched topic: strip, drop every "please" and every
      '?', strip again. */
  function CleanTopic(rest: string): string {
    Strip(RemoveAll(RemoveAll(Strip(rest), "please"), "?"))
  }

  /** `extract_topic(message)`: the cleaned text after the first occurrence
      of the first pattern found in the lowered message, or the whole
      lowered message, stripped, when no pattern occurs. */
  function Topic(message: string): string {
    var lower := Lower(message);
    match FirstMatch(lower, TopicPatterns, 0)
    case Some(k) => CleanTopic(AfterFirst(lower, TopicPatterns[k]))
    case None => Strip(lower)
  }

  /** The pattern loop of `extract_topic`, with its early return. */
  method ExtractTopic(message: string) returns (topic: string)
    ensures topic == Topic(message)
  {
    var lower := Lower(message);
    for i := 0 to |TopicPatterns|
      invariant forall j :: 0 <= j < i ==> !Contains(lower, TopicPatterns[j])
    {
      var pattern := TopicPatterns[i];
      if Contains(lower, pattern) {
        assert FirstMatch(lower, TopicPatterns, 0) == Some(i);
        topic := Strip(AfterFirst(lower, pattern));
        topic := Strip(RemoveAll(RemoveAll(topic, "please"), "?"));
        return;
      }
    }
    assert FirstMatch(lower, TopicPatterns, 0) == None;
    topic := Strip(lower);
  }

  /** The topic is lower case: the message is lowered before anything else. */
  lemma TopicIsLower(message: string)
    ensures IsLower(Topic(message))
  {
    var lower := Lower(message);
    LowerIsLower(message);
    var t := Topic(message);
    var m := FirstMatch(lower, TopicPatterns, 0);
    if m.Some? {
      var rest := AfterFirst(lower, TopicPatterns[m.value]);
      AfterFirstChars(lower, TopicPatterns[m.value]);
      StripChars(rest);
      StripChars(RemoveAll(RemoveAll(Strip(rest), "please"), "?"));
    } else {
      StripChars(lower);
    }
    forall i | 0 <= i < |t| ensures !IsUpper(t[i]) {
      assert t[i] in t;
      var k :| 0 <= k < |lower| && lower[k] == t[i];
    }
  }

  /** 'create a plan for ' contains 'plan for ' and 'i want to learn '
      contains 'learn ', both earlier in the list: those two patterns are
      never the one selected. */
  lemma ShadowedPatternsNeverSelected(message: string)
    ensures FirstMatch(Lower(message), TopicPatterns, 0) != Some(4)
    ensures FirstMatch(Lower(message), TopicPatterns, 0) != Some(5)
  {
    ShadowedBy(Lower(message), 4, 1, "create a ");
    ShadowedBy(Lower(message), 5, 2, "i want to ");
  }

  /** A pattern that ends with an earlier pattern is never the first match. */
  lemma ShadowedBy(s: string, k: nat, j: nat, before: string)
    requires j < k < |TopicPatterns| && TopicPatterns[k] == before + TopicPatterns[j]
    ensures FirstMatch(s, TopicPatterns, 0) != Some(k)
  {
    if Contains(s, TopicPatterns[k]) {
      ContainsInfix(s, before, TopicPatterns[j]);
    }
  }

  /** A topic cut from a matched pattern has no '?' and no surrounding
      whitespace. */
  lemma MatchedTopicIsClean(message: string)
    requires FirstMatch(Lower(message), TopicPatterns, 0).Some?
    ensures '?' !in Topic(message) && IsStripped(Topic(message))
  {
    var lower := Lower(message);
    var k := FirstMatch(lower, TopicPatterns, 0).value;
    var removed := RemoveAll(RemoveAll(Strip(AfterFirst(lower, TopicPatterns[k])), "please"), "?");
    RemoveAllChar(RemoveAll(Strip(AfterFirst(lower, TopicPatterns[k])), "please"), '?');
    StripChars(removed);
  }

  /** With no pattern, the topic is the message lowered and stripped, and it
      is empty only when the message is blank. */
  lemma UnmatchedTopicIsMessage(message: string)
    requires FirstMatch(Lower(message), TopicPatterns, 0).None?
    ensures Topic(message) == Lower(Strip(message))
    ensures Topic(message) == "" <==> Strip(message) == ""
  {
    StripLower(message);
  }

  // ---------------------------------------------------------------------
  // The endpoint

  /** Where `chat` sends a request. */
  datatype Route = BadRequest | StudyPlan(topic: string) | Chat(message: string)

  /** The routing of `chat`: `message` is the request's `message` field,
      `None` when the field or the JSON body is missing. */
  function RouteMessage(message: Option<string>): (r: Route)
    ensures r == BadRequest <==>
      (message == None || forall i :: 0 <= i < |message.value| ==> IsSpace(message.value[i]))
    ensures r.StudyPlan? ==>
      message.Some? && IsStudyRequest(Strip(message.value)) &&
      r.topic == Topic(Strip(message.value)) && r.topic != ""
    ensures r.Chat? ==> message.Some? && r.message == Strip(message.value) && r.message != ""
  {
    var m := Strip(message.GetOr(""));
    if m == "" then BadRequest
    else if IsStudyRequest(m) && Topic(m) != "" then StudyPlan(Topic(m))
    else Chat(m)
  }

  /** A study plan is requested exactly for a non-blank study request with a
      non-empty topic, and that topic is lower case. */
  lemma StudyPlanRoute(message: Option<string>)
    ensures RouteMessage(message).StudyPlan? <==>
      (var m := Strip(message.GetOr("")); m != "" && IsStudyRequest(m) && Topic(m) != "")
    ensures RouteMessage(message).StudyPlan? ==>
      RouteMessage(message).topic != "" && IsLower(RouteMessage(message).topic)
  {
    TopicIsLower(Strip(message.GetOr("")));
  }

  /** A study request whose topic comes out empty is chat, with the stripped
      message as it was typed. */
  lemma EmptyTopicFallsBackToChat(message: string)
    requires Strip(message) != "" && IsStudyRequest(Strip(message)) && Topic(Strip(message)) == ""
    ensures RouteMessage(Some(message)) == Chat(Strip(message))
  {
  }

  /** A JSON reply with its status code: `{key: text}`. */
  datatype HttpReply = HttpReply(status: nat, key: string, text: string)

  const NoMessageReply: HttpReply := HttpReply(400, "error", "No message provided")
  const ServerErrorReply: HttpReply := HttpReply(500, "error", "Error generating response")

  /** `chat()` for a client whose session is `session`. */
  function ChatReply(session: SessionState, message: Option<string>, send: Prompt -> Reply,
                     search: (string, nat) -> SearchFeed): HttpReply {
    match RouteMessage(message)
    case BadRequest => NoMessageReply
    case StudyPlan(topic) => HttpReply(200, "response", StudyPlanFor(session, topic, send))
    case Chat(m) => HttpReply(200, "response", ResponseFor(session, m, send, search))
  }

  /** The `/api/chat` handler. */
  method HandleChat(client: GeminiClient, message: Option<string>, send: Prompt -> Reply,
                    search: (string, nat) -> SearchFeed) returns (reply: HttpReply)
    ensures reply == ChatReply(client.session, message, send, search)
  {
    var userMessage := Strip(message.GetOr(""));
    if userMessage == "" {
      return NoMessageReply;
    }
    var responseText;
    if IsStudyRequest(userMessage) {
      var topic := ExtractTopic(userMessage);
      if topic != "" {
        responseText := client.GenerateStudyPlan(topic, send);
      } else {
        responseText := client.GenerateResponse(userMessage, send, search);
      }
    } else {
      responseText := client.GenerateResponse(userMessage, send, search);
    }
    return HttpReply(200, "response", responseText);
  }

  /** A blank message is answered with 400 before the client is asked
      anything: the reply depends on neither the session nor the oracles. */
  lemma BlankMessageNeverReachesClient(message: Option<string>, session: SessionState, other: SessionState,
                                       send: Prompt -> Reply, otherSend: Prompt -> Reply,
                                       search: (string, nat) -> SearchFeed,
                                       otherSearch: (string, nat) -> SearchFeed)
    requires Strip(message.GetOr("")) == ""
    ensures ChatReply(session, message, send, search) == NoMessageReply
    ensures ChatReply(session, message, send, search) == ChatReply(other, message, otherSend, otherSearch)
  {
  }

  /** Status 400 exactly for a blank message, 200 otherwise: both client
      methods catch every failure, so the 500 reply is never produced. */
  lemma ReplyStatus(session: SessionState, message: Option<string>, send: Prompt -> Reply,
                    search: (string, nat) -> SearchFeed)
    ensures ChatReply(session, message, send, search).status == 400 <==> Strip(message.GetOr("")) == ""
    ensures ChatReply(session, message, send, search).status != 400 ==>
      ChatReply(session, message, send, search).status == 200
    ensures ChatReply(session, message, send, search) != ServerErrorReply
  {
  }
}
