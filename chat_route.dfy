/**
 * The decision rule of the `POST /chat` handler of server.js: how the request's
 * `message` and the result of the completion call select the status and the
 * JSON body of the reply. The completion call itself is not modelled; its
 * result is an input.
 */
module ChatRoute {
  import opened Wrappers
  import opened JsText
  import opened CleanResponse

  /** A JSON value as it reaches the handler in `req.body.message`. */
  datatype JsonValue =
    | Undefined              // the property is absent
    | Null
    | Bool(b: bool)
    | Number(n: real)
    | Str(s: string)
    | Composite              // an object or an array

  /** JavaScript truthiness: `undefined`, `null`, `false`, `0` and "" are falsy. */
  predicate Truthy(v: JsonValue)
    ensures v.Str? ==> (Truthy(v) <==> !Falsy(Some(v.s)))
    ensures v.Undefined? || v.Null? ==> !Truthy(v)
    ensures v.Composite? ==> Truthy(v)
    ensures v.Number? ==> (Truthy(v) <==> v.n != 0.0)
    ensures v.Bool? ==> (Truthy(v) <==> v.b)
  {
    match v
    case Undefined => false
    case Null => false
    case Bool(b) => b
    case Number(n) => n != 0.0
    case Str(s) => s != []
    case Composite => true
  }

  /** The fixed system instruction sent ahead of every user message. */
  const SystemPrompt: string :=
    "You are PreventiveMedBot, an empathetic AI specializing in preventive healthcare. "
    + "You provide concise, human-like advice about healthy habits, symptom awareness, and when to consult a doctor. "
    + "Avoid medical diagnoses. Always encourage lifestyle improvement and professional consultation if needed."

  const NoMessage: string := "No message provided."
  const UpstreamFailure: string := "Error generating response from OpenAI"
  const FetchFailed: string := "Failed to fetch from OpenAI API"

  datatype Role = System | User

  /** One entry of the `messages` array of the completion request. */
  datatype ChatMessage = ChatMessage(role: Role, content: JsonValue)

  /** What the completion call produced, as far as the handler looks at it. */
  datatype Upstream =
    | Ok(content: Option<string>)         // `response.ok`; `choices[0].message.content`
    | NotOk(errorMessage: Option<string>) // `!response.ok`; `error.message` of the body
    | Threw(message: string)              // the call or the body parsing threw; the exception's message

  /** The JSON body written to the response. */
  datatype Body =
    | Reply(reply: string)
    | Error(error: string)
    | ErrorWithDetails(error: string, details: string)

  datatype Response = Response(status: nat, body: Body)

  /** Where the handler stands once it has read the request. */
  datatype Step =
    | Respond(response: Response)            // answered without calling the completion endpoint
    | Forward(messages: seq<ChatMessage>)    // the completion request to send

  /** Reads the request: reject a falsy message, otherwise build the completion request. */
  function Receive(message: JsonValue): (st: Step)
    ensures st.Respond? <==> !Truthy(message)
    ensures st.Respond? ==> st.response == Response(400, Error(NoMessage))
    ensures st.Forward? ==> (
              && |st.messages| == 2
              && st.messages[0] == ChatMessage(System, Str(SystemPrompt))
              && st.messages[1] == ChatMessage(User, message))
  {
    if !Truthy(message) then Respond(Response(400, Error(NoMessage)))
    else Forward([ChatMessage(System, Str(SystemPrompt)), ChatMessage(User, message)])
  }

  /** Turns the completion result into the response. */
  function Complete(u: Upstream): (r: Response)
    ensures r.status == 200 <==> u.Ok?
    ensures r.status == 200 ==> r.body.Reply?
    ensures r.status != 200 ==> r.status == 500 && r.body.ErrorWithDetails? && r.body.error == UpstreamFailure
  {
    match u
    case Ok(content) => Response(200, Reply(CleanAIResponse(Some(Or(content, "")))))
    case NotOk(errorMessage) => Response(500, ErrorWithDetails(UpstreamFailure, Or(errorMessage, FetchFailed)))
    case Threw(message) => Response(500, ErrorWithDetails(UpstreamFailure, message))
  }

  /** The whole handler, given the result the completion call would produce. */
  function HandleChat(message: JsonValue, u: Upstream): (r: Response)
    ensures r.status == 400 <==> !Truthy(message)
    ensures r.status == 400 ==> r.body == Error(NoMessage)
    ensures r.body.Reply? <==> r.status == 200
    ensures r.body.ErrorWithDetails? <==> r.status == 500
  {
    match Receive(message)
    case Respond(response) => response
    case Forward(_) => Complete(u)
  }

  /** The status tells the three outcomes apart: 400 for no message, 200 for a reply, 500 for an upstream failure. */
  lemma HandleChatStatus(message: JsonValue, u: Upstream)
    ensures HandleChat(message, u).status in {200, 400, 500}
    ensures HandleChat(message, u).status == 400 <==> !Truthy(message)
    ensures HandleChat(message, u).status == 200 <==> Truthy(message) && u.Ok?
    ensures HandleChat(message, u).status == 500 <==> Truthy(message) && !u.Ok?
  {
  }

  /** A falsy message is answered 400 whatever the completion call would have returned: it is never made. */
  lemma FalsyMessageNeverForwarded(message: JsonValue, u: Upstream, u': Upstream)
    requires !Truthy(message)
    ensures HandleChat(message, u) == HandleChat(message, u') == Response(400, Error(NoMessage))
  {
  }

  /** A whitespace-only message is truthy: it is forwarded unchanged, not rejected. */
  lemma WhitespaceMessageForwarded(s: string)
    requires s != [] && AllSpace(s)
    ensures Receive(Str(s)) == Forward([ChatMessage(System, Str(SystemPrompt)), ChatMessage(User, Str(s))])
  {
  }

  /**
   * A failed call is answered 500 with a fixed error and, as details, the
   * upstream's error message (a fixed text when it has none) or the message of
   * what was thrown.
   */
  lemma UpstreamFailureDetails(message: JsonValue, e: Option<string>, thrown: string)
    requires Truthy(message)
    ensures HandleChat(message, NotOk(e)) == Response(500, ErrorWithDetails(UpstreamFailure,
      if e == None || e == Some("") then FetchFailed else e.value))
    ensures HandleChat(message, Threw(thrown)) == Response(500, ErrorWithDetails(UpstreamFailure, thrown))
  {
  }

  /** A successful call without content is answered with the apology, since "" is cleaned. */
  lemma MissingContentGivesApology(message: JsonValue, content: Option<string>)
    requires Truthy(message) && Falsy(content)
    ensures HandleChat(message, Ok(content)) == Response(200, Reply(Apology))
  {
  }

  /**
   * A successful call with content is answered with that content cleaned: no
   * brace or double quote, single spaces only, and no longer than the content.
   */
  lemma ReplyIsCleanedContent(message: JsonValue, c: string)
    requires Truthy(message) && c != []
    ensures HandleChat(message, Ok(Some(c))).body.Reply?
    ensures var r := HandleChat(message, Ok(Some(c))).body.reply;
      && r == JoinWords(Words(DropBracesAndQuotes(StripFences(c))))
      && NoBraceOrQuote(r) && SingleSpaced(r) && |r| <= |c|
  {
    CleanIsJoinedWords(c);
    CleanHasNoBraceOrQuote(c);
    CleanIsSingleSpaced(c);
  }

  /** Every 200 reply, the apology included, is free of braces and quotes and single-spaced. */
  lemma EveryReplyIsClean(message: JsonValue, u: Upstream)
    requires HandleChat(message, u).status == 200
    ensures var b := HandleChat(message, u).body;
      b.Reply? && NoBraceOrQuote(b.reply) && SingleSpaced(b.reply)
  {
    var content := u.content;
    if Falsy(content) {
      ApologyIsClean();
    } else {
      ReplyIsCleanedContent(message, content.value);
    }
  }
}
